/** The names of a run's parts (_open and extension in bauta/lake/formats.py), as the text they are. */
module PartNames {
  import opened NumeralStrings

  datatype Format = Parquet | Csv | Ndjson

  /** extension: gzip shows on a text format only. */
  function Extension(format: Format, gzip: bool): string {
    match format
    case Parquet => ".parquet"
    case Csv => if gzip then ".csv.gz" else ".csv"
    case Ndjson => if gzip then ".ndjson.gz" else ".ndjson"
  }

  /** How many digits a number has. */
  function DigitCount(n: nat): (count: nat)
    ensures count >= 1 && n < Pow(10, count)
  {
    if n < 10 then 1 else Tenth(n, DigitCount(n / 10)); 1 + DigitCount(n / 10)
  }

  lemma Tenth(n: nat, count: nat)
    requires n / 10 < Pow(10, count)
    ensures n < Pow(10, count + 1)
  {
    PowNext(10, count);
  }

  function Width(n: nat): (width: nat)
    ensures width >= 5 && n < Pow(10, width)
  {
    var count := DigitCount(n);
    if count < 5 then PowOrder(10, count, 5); 5 else count
  }

  const DIGITS: string := "0123456789"

  /** `{:05d}`: the decimal digits, filled up with zeros to five. */
  function Padded(n: nat): (text: string)
    ensures |text| >= 5 && forall k :: 0 <= k < |text| ==> text[k] in DIGITS
  {
    var numerals := Numerals(10, n, Width(n));
    seq(|numerals|, k requires 0 <= k < |numerals| => DIGITS[numerals[k]])
  }

  function PartName(run: string, number: nat, extension: string): string {
    "part-" + run + "-" + Padded(number) + extension
  }

  lemma DigitsAreApart(a: nat, b: nat)
    requires a < 10 && b < 10 && DIGITS[a] == DIGITS[b]
    ensures a == b
  {
  }

  lemma PaddedAreApart(a: nat, b: nat)
    requires Padded(a) == Padded(b)
    ensures a == b
  {
    hide Pow, Numerals, Number, DigitCount;
    var left, right := Numerals(10, a, Width(a)), Numerals(10, b, Width(b));
    forall k | 0 <= k < |left| ensures left[k] == right[k] {
      assert Padded(a)[k] == DIGITS[left[k]] && Padded(b)[k] == DIGITS[right[k]];
      DigitsAreApart(left[k], right[k]);
    }
    assert left == right;
    NumberOfNumerals(10, a, Width(a));
    NumberOfNumerals(10, b, Width(b));
  }

  function LastOf(text: string, mark: char): (at: nat)
    requires mark in text
    ensures at < |text|
  {
    var n := |text| - 1;
    if text[n] == mark then n else assert text == text[..n] + [text[n]]; LastOf(text[..n], mark)
  }

  function FirstOf(text: string, mark: char): (at: nat)
    requires mark in text
    ensures at < |text|
  {
    if text[0] == mark then 0 else 1 + FirstOf(text[1..], mark)
  }

  lemma {:induction false} LastIsAt(before: string, mark: char, after: string)
    requires mark !in after
    ensures LastOf(before + [mark] + after, mark) == |before|
  {
    var text := before + [mark] + after;
    if after == "" {
      assert text[|text| - 1] == mark;
    } else {
      var n := |after| - 1;
      assert text[|text| - 1] == after[n] && text[..|text| - 1] == before + [mark] + after[..n];
      LastIsAt(before, mark, after[..n]);
    }
  }

  lemma {:induction false} FirstIsAt(before: string, mark: char, after: string)
    requires mark !in before
    ensures FirstOf(before + [mark] + after, mark) == |before|
  {
    var text := before + [mark] + after;
    if before != "" {
      assert text[0] == before[0] && text[1..] == before[1..] + [mark] + after;
      FirstIsAt(before[1..], mark, after);
    }
  }

  /** Text is cut at its last `mark` one way only. */
  lemma LastMarkCuts(a: string, b: string, c: string, d: string, mark: char)
    requires mark !in b && mark !in d && a + [mark] + b == c + [mark] + d
    ensures a == c && b == d
  {
    LastIsAt(a, mark, b);
    LastIsAt(c, mark, d);
    var text := a + [mark] + b;
    assert a == text[..|a|] && c == text[..|a|] && b == text[|a| + 1..] && d == text[|a| + 1..];
  }

  /** And at its first. */
  lemma FirstMarkCuts(a: string, b: string, c: string, d: string, mark: char)
    requires mark !in a && mark !in c && a + [mark] + b == c + [mark] + d
    ensures a == c && b == d
  {
    FirstIsAt(a, mark, b);
    FirstIsAt(c, mark, d);
    var text := a + [mark] + b;
    assert a == text[..|a|] && c == text[..|a|] && b == text[|a| + 1..] && d == text[|a| + 1..];
  }

  lemma ExtensionShape(format: Format, gzip: bool)
    ensures var e := Extension(format, gzip); e != "" && e == ['.'] + e[1..] && '-' !in e
  {
  }

  lemma PaddedShape(n: nat)
    ensures '-' !in Padded(n) && '.' !in Padded(n)
  {
    hide Padded;
  }

  /** What follows a name's last dash says its number and its extension. */
  lemma TailsAreApart(i: nat, a: string, j: nat, b: string)
    requires a != "" && a == ['.'] + a[1..] && b != "" && b == ['.'] + b[1..]
    requires Padded(i) + a == Padded(j) + b
    ensures i == j && a == b
  {
    hide Padded, FirstOf;
    PaddedShape(i);
    PaddedShape(j);
    assert Padded(i) + ['.'] + a[1..] == Padded(i) + a && Padded(j) + ['.'] + b[1..] == Padded(j) + b;
    FirstMarkCuts(Padded(i), a[1..], Padded(j), b[1..], '.');
    PaddedAreApart(i, j);
  }

  /** And what precedes it its run. */
  lemma RunsAreApart(prefix: string, run: string, tail: string, other: string, otherTail: string)
    requires '-' !in tail && '-' !in otherTail && prefix + run + "-" + tail == prefix + other + "-" + otherTail
    ensures run == other && tail == otherTail
  {
    hide LastOf;
    LastMarkCuts(prefix + run, tail, prefix + other, otherTail, '-');
    assert run == (prefix + run)[|prefix|..] && other == (prefix + other)[|prefix|..];
  }

  lemma NameIsCut(run: string, number: nat, extension: string)
    ensures PartName(run, number, extension) == "part-" + run + "-" + (Padded(number) + extension)
  {
    hide Padded;
  }

  /** No two parts share a name, of one run or of two, of one format or of two. */
  lemma NamesAreApart(run: string, i: nat, format: Format, gzip: bool, other: string, j: nat, otherFormat: Format,
                      otherGzip: bool)
    ensures var a, b := Extension(format, gzip), Extension(otherFormat, otherGzip);
            PartName(run, i, a) == PartName(other, j, b) <==> run == other && i == j && a == b
  {
    hide Padded, Extension, PartName;
    var a, b := Extension(format, gzip), Extension(otherFormat, otherGzip);
    if PartName(run, i, a) == PartName(other, j, b) {
      ExtensionShape(format, gzip);
      ExtensionShape(otherFormat, otherGzip);
      PaddedShape(i);
      PaddedShape(j);
      NameIsCut(run, i, a);
      NameIsCut(other, j, b);
      RunsAreApart("part-", run, Padded(i) + a, other, Padded(j) + b);
      TailsAreApart(i, a, j, b);
    }
  }
}
