/** The output image directory and the zero-padded frame file names. */
module Output {
  import opened Raster
  import opened Records

  /** The decimal digit character for d. */
  function DigitChar(d: nat): (c: char)
    requires d < 10
    ensures '0' <= c <= '9' && c as int - '0' as int == d
  {
    ('0' as int + d) as char
  }

  predicate IsDigits(s: string) {
    forall k :: 0 <= k < |s| ==> '0' <= s[k] <= '9'
  }

  /** The decimal rendering of n without leading zeros. */
  function Decimal(n: nat): (s: string)
    ensures |s| >= 1 && IsDigits(s)
    ensures n < 10 <==> |s| == 1
  {
    if n < 10 then [DigitChar(n)] else Decimal(n / 10) + [DigitChar(n % 10)]
  }

  /** s, left-padded with '0' up to width characters. */
  function ZeroPad(s: string, width: nat): (p: string)
    ensures |s| >= width ==> p == s
    ensures |s| < width ==> |p| == width && p[width - |s|..] == s && p[..width - |s|] == Zeros(width - |s|)
  {
    if |s| >= width then s else Zeros(width - |s|) + s
  }

  function Zeros(k: nat): (z: string)
    ensures |z| == k
  {
    if k == 0 then [] else ['0'] + Zeros(k - 1)
  }

  /** The file name a frame is written under and later looked for:
      the index padded to six digits, then ".png". */
  function FrameName(n: nat): string {
    ZeroPad(Decimal(n), 6) + ".png"
  }

  /** The value of a string of decimal digits, leading zeros allowed. */
  function ParseDecimal(s: string): nat
    requires IsDigits(s)
  {
    if s == [] then 0
    else ParseDecimal(s[..|s| - 1]) * 10 + (s[|s| - 1] as int - '0' as int)
  }

  /** Reads a frame index back from a file name of the form "<digits>.png". */
  function IndexOfName(name: string): (n: Option<nat>)
  {
    if |name| >= 4 && name[|name| - 4..] == ".png" && IsDigits(name[..|name| - 4])
    then Some(ParseDecimal(name[..|name| - 4]))
    else None
  }

  lemma {:induction false} DecimalRoundTrip(n: nat)
    ensures ParseDecimal(Decimal(n)) == n
  {
    if n >= 10 {
      var s := Decimal(n);
      assert s[..|s| - 1] == Decimal(n / 10);
      DecimalRoundTrip(n / 10);
    }
  }

  lemma {:induction false} LeadingZero(s: string)
    requires IsDigits(s)
    ensures IsDigits(['0'] + s) && ParseDecimal(['0'] + s) == ParseDecimal(s)
  {
    if s != [] {
      var t := ['0'] + s;
      assert t[..|t| - 1] == ['0'] + s[..|s| - 1];
      LeadingZero(s[..|s| - 1]);
    }
  }

  lemma {:induction false} LeadingZeros(k: nat, s: string)
    requires IsDigits(s)
    ensures IsDigits(Zeros(k) + s)
    ensures ParseDecimal(Zeros(k) + s) == ParseDecimal(s)
  {
    if k > 0 {
      var t := Zeros(k - 1) + s;
      assert Zeros(k) + s == ['0'] + t;
      LeadingZeros(k - 1, s);
      LeadingZero(t);
    } else {
      assert Zeros(k) + s == s;
    }
  }

  /** The index can be read back from its frame file name. */
  lemma FrameNameRoundTrip(n: nat)
    ensures IndexOfName(FrameName(n)) == Some(n)
  {
    var d := Decimal(n);
    var name := FrameName(n);
    var p := ZeroPad(d, 6);
    assert name[..|name| - 4] == p;
    assert name[|name| - 4..] == ".png";
    DecimalRoundTrip(n);
    if |d| < 6 {
      LeadingZeros(6 - |d|, d);
    }
  }

  /** Distinct frames never share a file. */
  lemma FrameNameInjective(n: nat, m: nat)
    ensures FrameName(n) == FrameName(m) ==> n == m
  {
    FrameNameRoundTrip(n);
    FrameNameRoundTrip(m);
  }

  /** Indices below one million get names of exactly ten characters. */
  lemma FrameNameWidth(n: nat)
    requires n < 1000000
    ensures |FrameName(n)| == 10
  {
    DecimalLength(n, 6);
  }

  function Pow10(k: nat): nat { if k == 0 then 1 else 10 * Pow10(k - 1) }

  lemma {:induction false} DecimalLength(n: nat, k: nat)
    requires 1 <= k && n < Pow10(k)
    ensures |Decimal(n)| <= k
  {
    if n >= 10 {
      assert k >= 2;
      DecimalLength(n / 10, k - 1);
    }
  }

  /** The `<output>/images/` directory: file name to image content. */
  class ImageDir {
    var files: map<string, Image>

    /** A freshly created, empty directory. */
    constructor ()
      ensures files == map[]
    {
      files := map[];
    }

    /** Deletes the directory and creates it again, empty. */
    method Reset()
      modifies this
      ensures files == map[]
    {
      files := map[];
    }

    /** Writes (or overwrites) one file. */
    method Save(name: string, img: Image)
      modifies this
      ensures files == old(files)[name := img]
    {
      files := files[name := img];
    }
  }
}
