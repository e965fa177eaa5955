/** Fixture file names and descriptions (generate.py lines 67-68 and 110-115):
    Python's integer formatting, with `{index:04d}` zero padding. */
module Naming {
  import opened Common

  predicate IsDigit(ch: char)
  {
    '0' <= ch <= '9'
  }

  predicate AllDigits(s: string)
  {
    forall i :: 0 <= i < |s| ==> IsDigit(s[i])
  }

  function Zeros(z: nat): (s: string)
    ensures |s| == z && AllDigits(s)
    ensures forall i :: 0 <= i < z ==> s[i] == '0'
  {
    seq(z, _ => '0')
  }

  function DigitChar(d: nat): (ch: char)
    requires d < 10
    ensures IsDigit(ch) && ch as int - '0' as int == d
  {
    ('0' as int + d) as char
  }

  /** `str(n)` for a non-negative integer: no leading zero except for 0 itself. */
  function Decimal(n: nat): (s: string)
    ensures |s| >= 1 && AllDigits(s)
    ensures |s| > 1 ==> s[0] != '0'
  {
    if n < 10 then [DigitChar(n)] else Decimal(n / 10) + [DigitChar(n % 10)]
  }

  /** The number a string of decimal digits denotes (leading zeros allowed). */
  function DigitsValue(s: string): nat
    requires AllDigits(s)
  {
    if s == [] then 0
    else
      assert IsDigit(s[|s| - 1]);
      DigitsValue(s[..|s| - 1]) * 10 + (s[|s| - 1] as int - '0' as int)
  }

  /** `f"{n:04d}"` for a non-negative integer. */
  function Pad4(n: nat): string
  {
    var digits := Decimal(n);
    Zeros(if |digits| < 4 then 4 - |digits| else 0) + digits
  }

  lemma {:induction false} DecimalValue(n: nat)
    ensures DigitsValue(Decimal(n)) == n
  {
    if n >= 10 {
      DecimalValue(n / 10);
      var s := Decimal(n);
      assert s[..|s| - 1] == Decimal(n / 10);
    }
  }

  lemma {:induction false} ZerosValue(z: nat)
    ensures DigitsValue(Zeros(z)) == 0
  {
    if z > 0 {
      assert Zeros(z)[..z - 1] == Zeros(z - 1);
      ZerosValue(z - 1);
    }
  }

  lemma {:induction false} LeadingZerosValue(z: nat, s: string)
    requires AllDigits(s)
    ensures AllDigits(Zeros(z) + s)
    ensures DigitsValue(Zeros(z) + s) == DigitsValue(s)
    decreases |s|
  {
    var t := Zeros(z) + s;
    assert AllDigits(t);
    if s == [] {
      assert t == Zeros(z);
      ZerosValue(z);
    } else {
      assert t[..|t| - 1] == Zeros(z) + s[..|s| - 1];
      LeadingZerosValue(z, s[..|s| - 1]);
    }
  }

  /** The padded index has at least four characters, more only when the
      index itself needs them, and reads back as the index. */
  lemma Pad4Props(n: nat)
    ensures |Pad4(n)| == if |Decimal(n)| < 4 then 4 else |Decimal(n)|
    ensures AllDigits(Pad4(n))
    ensures DigitsValue(Pad4(n)) == n
  {
    var digits := Decimal(n);
    var z := if |digits| < 4 then 4 - |digits| else 0;
    LeadingZerosValue(z, digits);
    DecimalValue(n);
  }

  /** Line 68: `currdir + f"/instance{batchname}{index:04d}.abc.yaml"`. */
  function FileName(dir: string, batch: string, index: nat): string
  {
    dir + "/instance" + batch + Pad4(index) + ".abc.yaml"
  }

  /** Within one batch, distinct indices give distinct file names, so no
      fixture of a batch overwrites another of the same run. */
  lemma FileNameInjective(dir: string, batch: string, i: nat, j: nat)
    ensures FileName(dir, batch, i) == FileName(dir, batch, j) <==> i == j
  {
    if FileName(dir, batch, i) == FileName(dir, batch, j) {
      var prefix := dir + "/instance" + batch;
      var suffix := ".abc.yaml";
      var f := FileName(dir, batch, i);
      Pad4Props(i);
      Pad4Props(j);
      assert f == prefix + Pad4(i) + suffix;
      assert FileName(dir, batch, j) == prefix + Pad4(j) + suffix;
      assert |Pad4(i)| == |Pad4(j)|;
      assert Pad4(i) == f[|prefix|..|f| - |suffix|];
      assert Pad4(j) == f[|prefix|..|f| - |suffix|];
    }
  }

  /** `str(i)` for any integer. */
  function IntToString(i: int): string
  {
    if i < 0 then "-" + Decimal(-i) else Decimal(i)
  }

  /** `str(setsize)`: a number, the sentinel string, or "None". */
  function SetSizeToString(s: SetSize): string
  {
    match s
    case Count(n) => IntToString(n)
    case CommitteeSizeTag => "committeesize"
    case NoSize => "None"
  }

  /** `str(i)` never reads as the set-size sentinel or as `None`: it starts
      with a minus sign or a digit. */
  lemma IntToStringNotWord(i: int)
    ensures |IntToString(i)| >= 1
    ensures IntToString(i)[0] == '-' || IsDigit(IntToString(i)[0])
    ensures IntToString(i) != "committeesize" && IntToString(i) != "None"
  {
    var t := IntToString(i);
    if i < 0 {
      assert t[0] == '-';
    } else {
      assert IsDigit(Decimal(i)[0]);
    }
    assert "committeesize"[0] == 'c' && "None"[0] == 'N';
  }

  /** Lines 110-115: the fixture's description text. */
  function Description(s: Scenario): string
  {
    "profile generated via prob_distribution=" + s.distribution
    + ", num_voters=" + IntToString(s.numVoters)
    + ", num_cand=" + IntToString(s.numCand)
    + ", setsize=" + SetSizeToString(s.setSize)
  }

  /** The name of the second fixture of batch "S", as the generator writes it. */
  lemma FileNameExample()
    ensures FileName("", "S", 1) == "/instanceS0001.abc.yaml"
  {
    assert Decimal(1) == "1";
    assert Pad4(1) == "0001" by { assert Zeros(3) == "000"; }
  }

  /** An index with more than four digits is written in full, not truncated. */
  lemma Pad4Wide()
    ensures Pad4(12345) == "12345"
  {
    assert Decimal(12345) == "12345" by {
      assert Decimal(1) == "1";
      assert Decimal(12) == "12";
      assert Decimal(123) == "123";
      assert Decimal(1234) == "1234";
    }
    assert Zeros(0) == "";
  }

  /** The description of a tuple as the generator writes it: the set size
      printed last, after the distribution and the two counts. */
  lemma DescriptionExample(s: Scenario)
    requires s == Scenario(3, 8, 6, "IC", Count(3))
    ensures Description(s)
            == "profile generated via prob_distribution=IC, num_voters=8, num_cand=6, setsize=3"
  {
    assert IntToString(8) == "8" && IntToString(6) == "6";
    assert SetSizeToString(Count(3)) == "3";
    var d1 := "profile generated via prob_distribution=" + "IC";
    assert d1 == "profile generated via prob_distribution=IC";
    var d2 := d1 + ", num_voters=" + "8";
    assert d2 == "profile generated via prob_distribution=IC, num_voters=8";
    var d3 := d2 + ", num_cand=" + "6";
    assert d3 == "profile generated via prob_distribution=IC, num_voters=8, num_cand=6";
    assert Description(s) == d3 + ", setsize=" + "3";
  }

  /** The description ends with the printed set size, and that text is one
      of the three forms `str(setsize)` takes. */
  lemma DescriptionSetSize(s: Scenario)
    ensures var d := Description(s);
            var t := SetSizeToString(s.setSize);
            |t| <= |d| && d[|d| - |t|..] == t
    ensures s.setSize.Count? ==> SetSizeToString(s.setSize) == IntToString(s.setSize.n)
    ensures SetSizeToString(s.setSize) == "committeesize" <==> s.setSize == CommitteeSizeTag
    ensures SetSizeToString(s.setSize) == "None" <==> s.setSize == NoSize
  {
    if s.setSize.Count? {
      IntToStringNotWord(s.setSize.n);
    }
  }
}
