/** Path strings: the shard file names with their zero-padded index, and
    the parent-directory relation that os.makedirs and file writes rely on. */
module Paths {

  type Path = string

  predicate IsDigit(c: char) { '0' <= c <= '9' }

  predicate IsDigits(s: string) {
    forall k :: 0 <= k < |s| ==> IsDigit(s[k])
  }

  function DigitChar(d: nat): (c: char)
    requires d < 10
    ensures IsDigit(c)
  {
    ('0' as int + d) as char
  }

  /** The numeric value of a string of decimal digits (leading zeros allowed). */
  function Value(s: string): nat
    requires IsDigits(s)
  {
    if s == [] then 0 else Value(s[..|s| - 1]) * 10 + (s[|s| - 1] as int - '0' as int)
  }

  /** str(n): the decimal digits of n, without leading zeros. */
  function Decimal(n: nat): (s: string)
    ensures |s| >= 1 && IsDigits(s)
  {
    if n < 10 then [DigitChar(n)] else Decimal(n / 10) + [DigitChar(n % 10)]
  }

  function Zeros(k: nat): (s: string)
    ensures |s| == k && IsDigits(s)
  {
    seq(k, _ => '0')
  }

  /** f"{n:05d}": n in decimal, left-padded with zeros to five characters. */
  function Pad5(n: nat): (s: string)
    ensures |s| >= 5 && IsDigits(s)
  {
    var d := Decimal(n);
    if |d| >= 5 then d else Zeros(5 - |d|) + d
  }

  lemma {:induction false} DecimalValue(n: nat)
    ensures Value(Decimal(n)) == n
  {
    if n >= 10 {
      DecimalValue(n / 10);
      assert (Decimal(n / 10) + [DigitChar(n % 10)])[..|Decimal(n)| - 1] == Decimal(n / 10);
    }
  }

  lemma {:induction false} ZerosValue(k: nat, s: string)
    requires IsDigits(s)
    ensures Value(Zeros(k) + s) == Value(s)
    decreases |s|, k
  {
    if s == [] {
      assert Zeros(k) + s == Zeros(k);
      if k > 0 {
        assert Zeros(k)[..k - 1] == Zeros(k - 1);
        ZerosValue(k - 1, []);
        assert Zeros(k - 1) + [] == Zeros(k - 1);
      }
    } else {
      var init := s[..|s| - 1];
      assert (Zeros(k) + s)[..|Zeros(k) + s| - 1] == Zeros(k) + init;
      ZerosValue(k, init);
    }
  }

  /** Reading the padded index back gives the index: the padding loses nothing. */
  lemma Pad5Value(n: nat)
    ensures Value(Pad5(n)) == n
  {
    var d := Decimal(n);
    DecimalValue(n);
    if |d| < 5 {
      ZerosValue(5 - |d|, d);
    }
  }

  function Pow10(k: nat): (p: nat)
    ensures p >= 1
  {
    if k == 0 then 1 else 10 * Pow10(k - 1)
  }

  /** A number below 10^k has at most k decimal digits (and at least one). */
  lemma {:induction false} DecimalWidth(n: nat, k: nat)
    requires 1 <= k && n < Pow10(k)
    ensures |Decimal(n)| <= k
  {
    if n >= 10 {
      assert k >= 2;
      assert n / 10 < Pow10(k - 1);
      DecimalWidth(n / 10, k - 1);
    }
  }

  /** Every shard index below 100000 pads to exactly five digits. */
  lemma Pad5Width(n: nat)
    requires n < 100000
    ensures |Pad5(n)| == 5
  {
    assert Pow10(5) == 100000;
    DecimalWidth(n, 5);
  }

  /** Distinct indices give distinct padded strings. */
  lemma Pad5Injective(m: nat, n: nat)
    requires Pad5(m) == Pad5(n)
    ensures m == n
  {
    Pad5Value(m);
    Pad5Value(n);
  }

  const ConvertedPlaces: Path := "data/converted/places"
  const DownloadedPlaces: Path := "data/downloaded/places"

  /** f"data/converted/places/places-{i:05d}.csv" */
  function ConvertedPath(i: nat): Path {
    ConvertedPlaces + "/places-" + Pad5(i) + ".csv"
  }

  /** f"data/downloaded/places/places-{i:05d}.zstd.parquet" */
  function ParquetPath(i: nat): Path {
    DownloadedPlaces + "/places-" + Pad5(i) + ".zstd.parquet"
  }

  lemma PadInside(prefix: string, pad: string, suffix: string)
    ensures (prefix + pad + suffix)[|prefix|..|prefix| + |pad|] == pad
  {
  }

  /** Distinct shard indices have distinct converted files. */
  lemma ConvertedPathInjective(i: nat, j: nat)
    requires ConvertedPath(i) == ConvertedPath(j)
    ensures i == j
  {
    var prefix := ConvertedPlaces + "/places-";
    PadInside(prefix, Pad5(i), ".csv");
    PadInside(prefix, Pad5(j), ".csv");
    assert |Pad5(i)| == |ConvertedPath(i)| - |prefix| - 4 == |Pad5(j)|;
    Pad5Injective(i, j);
  }

  /** Distinct shard indices have distinct source files. */
  lemma ParquetPathInjective(i: nat, j: nat)
    requires ParquetPath(i) == ParquetPath(j)
    ensures i == j
  {
    var prefix := DownloadedPlaces + "/places-";
    PadInside(prefix, Pad5(i), ".zstd.parquet");
    PadInside(prefix, Pad5(j), ".zstd.parquet");
    assert |Pad5(i)| == |ParquetPath(i)| - |prefix| - 13 == |Pad5(j)|;
    Pad5Injective(i, j);
  }

  /** No converted file is a source file: they live under different trees. */
  lemma ConvertedIsNotParquet(i: nat, j: nat)
    ensures ConvertedPath(i) != ParquetPath(j)
  {
    assert ConvertedPath(i)[5] == 'c';
    assert ParquetPath(j)[5] == 'd';
  }

  /** The worked example: shard 7 is places-00007. */
  lemma Pad5Seven()
    ensures Pad5(7) == "00007"
  {
    assert DigitChar(7) == '7';
    assert Decimal(7) == "7";
    assert Zeros(4) == "0000";
    assert Pad5(7) == "0000" + "7";
  }

  /** The first shard is places-00000. */
  lemma Pad5Zero()
    ensures Pad5(0) == "00000"
  {
    assert DigitChar(0) == '0';
    assert Decimal(0) == "0";
    assert Zeros(4) == "0000";
    assert Pad5(0) == "0000" + "0";
  }

  lemma ConvertedPathSeven()
    ensures ConvertedPath(7) == "data/converted/places/places-00007.csv"
  {
    Pad5Seven();
  }

  lemma ParquetPathSeven()
    ensures ParquetPath(7) == "data/downloaded/places/places-00007.zstd.parquet"
  {
    Pad5Seven();
  }

  /** The directory part of a path: everything before its last '/', or ""
      (the working directory) when it has none. */
  function Parent(p: Path): (q: Path)
    ensures |p| > 0 ==> |q| < |p|
    ensures |q| <= |p| && q == p[..|q|]
  {
    if |p| == 0 then ""
    else if p[|p| - 1] == '/' then p[..|p| - 1]
    else Parent(p[..|p| - 1])
  }

  /** The proper ancestors of p, the working directory excluded. */
  function Ancestors(p: Path): set<Path>
    decreases |p|
  {
    var q := Parent(p);
    if q == "" then {} else {q} + Ancestors(q)
  }

  /** Every ancestor of p is a proper prefix of p. */
  lemma {:induction false} AncestorsArePrefixes(p: Path)
    ensures forall q :: q in Ancestors(p) ==> |q| < |p| && q == p[..|q|]
    decreases |p|
  {
    var q := Parent(p);
    if q != "" {
      AncestorsArePrefixes(q);
      forall r | r in Ancestors(q)
        ensures r == p[..|r|]
      {
        assert p[..|q|][..|r|] == p[..|r|];
      }
    }
  }

  /** The parent of dir + "/" + name is dir when name holds no '/'. */
  lemma {:induction false} ParentOfJoin(dir: Path, name: string)
    requires '/' !in name
    ensures Parent(dir + "/" + name) == dir
  {
    var p := dir + "/" + name;
    if name == [] {
      assert p[..|p| - 1] == dir;
    } else {
      assert p[|p| - 1] == name[|name| - 1];
      assert name[|name| - 1] in name;
      assert p[..|p| - 1] == dir + "/" + name[..|name| - 1];
      assert '/' !in name[..|name| - 1];
      ParentOfJoin(dir, name[..|name| - 1]);
    }
  }

  lemma DigitsHaveNoSlash(s: string)
    requires IsDigits(s)
    ensures '/' !in s
  {
  }

  /** Shard files sit directly in their places directory. */
  lemma ShardParents(i: nat)
    ensures Parent(ConvertedPath(i)) == ConvertedPlaces
    ensures Parent(ParquetPath(i)) == DownloadedPlaces
  {
    DigitsHaveNoSlash(Pad5(i));
    ConvertedParent(i);
    ParquetParent(i);
  }

  lemma ConvertedParent(i: nat)
    requires '/' !in Pad5(i)
    ensures Parent(ConvertedPath(i)) == ConvertedPlaces
  {
    assert '/' !in "places-" + Pad5(i) + ".csv";
    assert ConvertedPath(i) == ConvertedPlaces + "/" + ("places-" + Pad5(i) + ".csv");
    ParentOfJoin(ConvertedPlaces, "places-" + Pad5(i) + ".csv");
  }

  lemma ParquetParent(i: nat)
    requires '/' !in Pad5(i)
    ensures Parent(ParquetPath(i)) == DownloadedPlaces
  {
    assert '/' !in "places-" + Pad5(i) + ".zstd.parquet";
    assert ParquetPath(i) == DownloadedPlaces + "/" + ("places-" + Pad5(i) + ".zstd.parquet");
    ParentOfJoin(DownloadedPlaces, "places-" + Pad5(i) + ".zstd.parquet");
  }
}
