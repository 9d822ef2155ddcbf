/** The table of values of the noise object, and an order of its entries in
    which their signs alternate. */
module ValueTable {
  /** Entry c of a row. */
  function PickValue(c: int, a0: real, a1: real, a2: real, a3: real, a4: real, a5: real, a6: real, a7: real,
                     a8: real, a9: real, a10: real, a11: real, a12: real, a13: real, a14: real, a15: real): real {
    if c < 4 then (
      if c < 2 then (if c < 1 then a0 else a1) else (if c < 3 then a2 else a3)
    ) else if c < 8 then (
      if c < 6 then (if c < 5 then a4 else a5) else (if c < 7 then a6 else a7)
    ) else if c < 12 then (
      if c < 10 then (if c < 9 then a8 else a9) else (if c < 11 then a10 else a11)
    ) else (
      if c < 14 then (if c < 13 then a12 else a13) else (if c < 15 then a14 else a15)
    )
  }

  function PickIndex(c: int, a0: nat, a1: nat, a2: nat, a3: nat, a4: nat, a5: nat, a6: nat, a7: nat, a8: nat,
                     a9: nat, a10: nat, a11: nat, a12: nat, a13: nat, a14: nat, a15: nat): nat {
    if c < 4 then (
      if c < 2 then (if c < 1 then a0 else a1) else (if c < 3 then a2 else a3)
    ) else if c < 8 then (
      if c < 6 then (if c < 5 then a4 else a5) else (if c < 7 then a6 else a7)
    ) else if c < 12 then (
      if c < 10 then (if c < 9 then a8 else a9) else (if c < 11 then a10 else a11)
    ) else (
      if c < 14 then (if c < 13 then a12 else a13) else (if c < 15 then a14 else a15)
    )
  }

  /** VAL_LUT. */
  function Value(i: nat): real {
    if i < 128 then (
      if i < 64 then (
        if i < 32 then (
          if i < 16 then (
            PickValue(i, 0.3490196078, 0.4352941176, -0.4509803922, 0.6392156863, 0.5843137255, -0.1215686275,
                         0.7176470588, -0.1058823529, 0.3960784314, 0.0431372549, -0.03529411765, 0.3176470588,
                         0.7254901961, 0.137254902, 0.8588235294, -0.8196078431)
          ) else (
            PickValue(i - 16, -0.7960784314, -0.3333333333, -0.6705882353, -0.3882352941, 0.262745098, 0.3254901961,
                              -0.6470588235, -0.9215686275, -0.5294117647, 0.5294117647, -0.4666666667, 0.8117647059,
                              0.3803921569, 0.662745098, 0.03529411765, -0.6156862745)
          )
        ) else (
          if i < 48 then (
            PickValue(i - 32, -0.01960784314, -0.3568627451, -0.09019607843, 0.7490196078, 0.8352941176,
                              -0.4039215686, -0.7490196078, 0.9529411765, -0.0431372549, -0.9294117647, -0.6549019608,
                              0.9215686275, -0.06666666667, -0.4431372549, 0.4117647059, -0.4196078431)
          ) else (
            PickValue(i - 48, -0.7176470588, -0.8117647059, -0.2549019608, 0.4901960784, 0.9137254902, 0.7882352941,
                              -1.0, -0.4745098039, 0.7960784314, 0.8509803922, -0.6784313725, 0.4588235294, 1.0,
                              -0.1843137255, 0.4509803922, 0.1450980392)
          )
        )
      ) else (
        if i < 96 then (
          if i < 80 then (
            PickValue(i - 64, -0.231372549, -0.968627451, -0.8588235294, 0.4274509804, 0.003921568627,
                              -0.003921568627, 0.2156862745, 0.5058823529, 0.7647058824, 0.2078431373, -0.5921568627,
                              0.5764705882, -0.1921568627, -0.937254902, 0.08235294118, -0.08235294118)
          ) else (
            PickValue(i - 80, 0.9058823529, 0.8274509804, 0.02745098039, -0.168627451, -0.7803921569, 0.1137254902,
                              -0.9450980392, 0.2, 0.01960784314, 0.5607843137, 0.2705882353, 0.4431372549,
                              -0.9607843137, 0.6156862745, 0.9294117647, -0.07450980392)
          )
        ) else (
          if i < 112 then (
            PickValue(i - 96, 0.3098039216, 0.9921568627, -0.9137254902, -0.2941176471, -0.3411764706, -0.6235294118,
                              -0.7647058824, -0.8901960784, 0.05882352941, 0.2392156863, 0.7333333333, 0.6549019608,
                              0.2470588235, 0.231372549, -0.3960784314, -0.05098039216)
          ) else (
            PickValue(i - 112, -0.2235294118, -0.3725490196, 0.6235294118, 0.7019607843, -0.8274509804, 0.4196078431,
                               0.07450980392, 0.8666666667, -0.537254902, -0.5058823529, -0.8039215686, 0.09019607843,
                               -0.4823529412, 0.6705882353, -0.7882352941, 0.09803921569)
          )
        )
      )
    ) else (
      if i < 192 then (
        if i < 160 then (
          if i < 144 then (
            PickValue(i - 128, -0.6078431373, 0.8039215686, -0.6, -0.3254901961, -0.4117647059, -0.01176470588,
                               0.4823529412, 0.168627451, 0.8745098039, -0.3647058824, -0.1607843137, 0.568627451,
                               -0.9921568627, 0.9450980392, 0.5137254902, 0.01176470588)
          ) else (
            PickValue(i - 144, -0.1450980392, -0.5529411765, -0.5764705882, -0.1137254902, 0.5215686275, 0.1607843137,
                               0.3725490196, -0.2, -0.7254901961, 0.631372549, 0.7098039216, -0.568627451,
                               0.1294117647, -0.3098039216, 0.7411764706, -0.8509803922)
          )
        ) else (
          if i < 176 then (
            PickValue(i - 160, 0.2549019608, -0.6392156863, -0.5607843137, -0.3176470588, 0.937254902, 0.9843137255,
                               0.5921568627, 0.6941176471, 0.2862745098, -0.5215686275, 0.1764705882, 0.537254902,
                               -0.4901960784, -0.4588235294, -0.2078431373, -0.2156862745)
          ) else (
            PickValue(i - 176, 0.7725490196, 0.3647058824, -0.2392156863, 0.2784313725, -0.8823529412, 0.8980392157,
                               0.1215686275, 0.1058823529, -0.8745098039, -0.9843137255, -0.7019607843, 0.9607843137,
                               0.2941176471, 0.3411764706, 0.1529411765, 0.06666666667)
          )
        )
      ) else (
        if i < 224 then (
          if i < 208 then (
            PickValue(i - 192, -0.9764705882, 0.3019607843, 0.6470588235, -0.5843137255, 0.05098039216, -0.5137254902,
                               -0.137254902, 0.3882352941, -0.262745098, -0.3019607843, -0.1764705882, -0.7568627451,
                               0.1843137255, -0.5450980392, -0.4980392157, -0.2784313725)
          ) else (
            PickValue(i - 208, -0.9529411765, -0.09803921569, 0.8901960784, -0.2862745098, -0.3803921569,
                               0.5529411765, 0.7803921569, -0.8352941176, 0.6862745098, 0.7568627451, 0.4980392157,
                               -0.6862745098, -0.8980392157, -0.7725490196, -0.7098039216, -0.2470588235)
          )
        ) else (
          if i < 240 then (
            PickValue(i - 224, -0.9058823529, 0.9764705882, 0.1921568627, 0.8431372549, -0.05882352941, 0.3568627451,
                               0.6078431373, 0.5450980392, 0.4039215686, -0.7333333333, -0.4274509804, 0.6,
                               0.6784313725, -0.631372549, -0.02745098039, -0.1294117647)
          ) else (
            PickValue(i - 240, 0.3333333333, -0.8431372549, 0.2235294118, -0.3490196078, -0.6941176471, 0.8823529412,
                               0.4745098039, 0.4666666667, -0.7411764706, -0.2705882353, 0.968627451, 0.8196078431,
                               -0.662745098, -0.4352941176, -0.8666666667, -0.1529411765)
          )
        )
      )
    )
  }

  /** A permutation of fixed points and cycles of three. */
  function Sort(i: nat): nat {
    if i < 128 then (
      if i < 64 then (
        if i < 32 then (
          if i < 16 then (
            PickIndex(i, 235, 61, 3, 5, 245, 2, 247, 10, 251, 7, 9, 15, 12, 17, 14, 16)
          ) else (
            PickIndex(i - 16, 11, 18, 13, 22, 20, 19, 21, 24, 25, 23, 27, 31, 28, 33, 30, 26)
          )
        ) else (
          if i < 48 then (
            PickIndex(i - 32, 29, 32, 35, 37, 36, 34, 39, 41, 43, 38, 51, 45, 53, 40, 46, 42)
          ) else (
            PickIndex(i - 48, 57, 44, 59, 47, 52, 49, 1, 48, 56, 55, 63, 65, 60, 54, 62, 69)
          )
        )
      ) else (
        if i < 96 then (
          if i < 80 then (
            PickIndex(i - 64, 67, 50, 71, 77, 68, 58, 70, 79, 72, 83, 73, 95, 75, 64, 78, 66)
          ) else (
            PickIndex(i - 80, 80, 99, 82, 74, 81, 101, 85, 103, 88, 111, 90, 113, 87, 121, 94, 76)
          )
        ) else (
          if i < 112 then (
            PickIndex(i - 96, 96, 131, 89, 84, 91, 86, 93, 92, 104, 133, 106, 137, 108, 145, 97, 98)
          ) else (
            PickIndex(i - 112, 105, 100, 114, 147, 107, 151, 118, 155, 109, 102, 115, 157, 117, 159, 119, 161)
          )
        )
      )
    ) else (
      if i < 192 then (
        if i < 160 then (
          if i < 144 then (
            PickIndex(i - 128, 123, 163, 125, 110, 127, 112, 134, 169, 136, 116, 129, 173, 135, 175, 142, 185)
          ) else (
            PickIndex(i - 144, 139, 120, 141, 122, 148, 195, 150, 124, 143, 197, 154, 126, 156, 128, 158, 130)
          )
        ) else (
          if i < 176 then (
            PickIndex(i - 160, 160, 132, 149, 138, 164, 201, 166, 203, 168, 140, 170, 205, 153, 144, 165, 146)
          ) else (
            PickIndex(i - 176, 176, 207, 167, 209, 171, 211, 182, 215, 177, 152, 179, 219, 188, 221, 190, 223)
          )
        )
      ) else (
        if i < 224 then (
          if i < 208 then (
            PickIndex(i - 192, 181, 233, 194, 162, 196, 172, 183, 237, 187, 174, 189, 178, 204, 180, 191, 184)
          ) else (
            PickIndex(i - 208, 193, 186, 210, 192, 199, 239, 214, 198, 216, 241, 218, 200, 213, 202, 217, 206)
          )
        ) else (
          if i < 240 then (
            PickIndex(i - 224, 225, 243, 226, 249, 227, 253, 230, 255, 232, 208, 229, 244, 236, 212, 231, 220)
          ) else (
            PickIndex(i - 240, 240, 222, 242, 224, 0, 248, 246, 252, 4, 228, 250, 254, 6, 234, 8, 238)
          )
        )
      )
    )
  }

  function ValLut(): (lut: seq<real>)
    ensures |lut| == 256 && forall i :: 0 <= i < 256 ==> lut[i] == Value(i)
  {
    seq(256, i requires 0 <= i < 256 => Value(i))
  }

  lemma ValuesWithin(i: nat)
    requires i < 256
    ensures -1.0 <= Value(i) <= 1.0
  {}

  lemma SortedBytes(i: nat)
    requires i < 256
    ensures Sort(i) < 256
  {}

  /** Entry i in the new order is not negative for even i, not positive for odd i. */
  ghost predicate Alternates(i: nat) {
    if i % 2 == 0 then Value(Sort(i)) >= 0.0 else Value(Sort(i)) <= 0.0
  }

  lemma Signs0(i: nat)
    requires i < 64
    ensures Alternates(i)
  {}

  lemma Signs1(i: nat)
    requires 64 <= i < 128
    ensures Alternates(i)
  {}

  lemma Signs2(i: nat)
    requires 128 <= i < 192
    ensures Alternates(i)
  {}

  lemma Signs3(i: nat)
    requires 192 <= i < 256
    ensures Alternates(i)
  {}

  lemma SignsAlternate(i: nat)
    requires i < 256
    ensures Alternates(i)
  {
    hide Alternates;
    if i < 64 { Signs0(i); } else if i < 128 { Signs1(i); } else if i < 192 { Signs2(i); } else { Signs3(i); }
  }

  /** Two neighbours in the new order are 1 and -1. */
  lemma Extremes()
    ensures Value(Sort(60)) == 1.0 && Value(Sort(61)) == -1.0
  {}

  ghost predicate ThriceBack(i: nat) {
    Sort(Sort(Sort(i))) == i
  }

  lemma Back0(i: nat)
    requires i < 64
    ensures ThriceBack(i)
  {}

  lemma Back1(i: nat)
    requires 64 <= i < 128
    ensures ThriceBack(i)
  {}

  lemma Back2(i: nat)
    requires 128 <= i < 192
    ensures ThriceBack(i)
  {}

  lemma Back3(i: nat)
    requires 192 <= i < 256
    ensures ThriceBack(i)
  {}

  /** Three steps of the permutation lead back. */
  lemma SortThrice(i: nat)
    requires i < 256
    ensures ThriceBack(i)
  {
    hide ThriceBack;
    if i < 64 { Back0(i); } else if i < 128 { Back1(i); } else if i < 192 { Back2(i); } else { Back3(i); }
  }
}
