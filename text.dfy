/**
 * The two string operations the handler relies on: Python's
 * `str.split(sep)` with an explicit one-character separator (used on the
 * token and, as a simplification of `str.splitlines`, on the manifest), and
 * the decimal rendering of an index inside an f-string (`f"segment_{i}.ts"`).
 */
module Text {

  /**
   * `s.split(sep)`: the fields between separators, empty fields included,
   * so `"a..b"` gives `["a", "", "b"]` and `""` gives `[""]`.
   */
  function Split(s: string, sep: char): (fields: seq<string>)
    ensures |fields| >= 1
    ensures forall k :: 0 <= k < |fields| ==> sep !in fields[k]
    ensures fields[0] <= s && (|fields[0]| == |s| || s[|fields[0]|] == sep)
    ensures |fields| == 1 <==> sep !in s
    decreases |s|
  {
    if s == [] then [""]
    else
      var rest := Split(s[1..], sep);
      if s[0] == sep then [""] + rest
      else [[s[0]] + rest[0]] + rest[1..]
  }

  /** `sep.join(fields)`. */
  function JoinFields(fields: seq<string>, sep: char): string
    requires |fields| >= 1
  {
    if |fields| == 1 then fields[0] else fields[0] + [sep] + JoinFields(fields[1..], sep)
  }

  /** The fields after the first are the split of what follows the first separator. */
  lemma {:induction false} SplitTail(s: string, sep: char)
    requires sep in s
    ensures |Split(s, sep)[0]| < |s|
    ensures Split(s, sep)[1..] == Split(s[|Split(s, sep)[0]| + 1..], sep)
    decreases |s|
  {
    if s[0] != sep {
      var rest := Split(s[1..], sep);
      assert sep in s[1..];
      SplitTail(s[1..], sep);
      assert s[1..][|rest[0]| + 1..] == s[|rest[0]| + 1 + 1..];
    }
  }

  /** Joining the fields of a split gives back the string. */
  lemma {:induction false} JoinSplit(s: string, sep: char)
    ensures JoinFields(Split(s, sep), sep) == s
    decreases |s|
  {
    if s != [] {
      JoinSplit(s[1..], sep);
      JoinSplitStep(s, sep);
      assert s == [s[0]] + s[1..];
    }
  }

  /** Splitting one more character in front puts that character in front of the join. */
  lemma JoinSplitStep(s: string, sep: char)
    requires s != []
    ensures JoinFields(Split(s, sep), sep) == [s[0]] + JoinFields(Split(s[1..], sep), sep)
  {
    var rest := Split(s[1..], sep);
    if s[0] == sep {
      JoinSeparatorFirst(rest, sep);
    } else {
      JoinCharFirst(s[0], rest, sep);
    }
  }

  lemma JoinSeparatorFirst(rest: seq<string>, sep: char)
    requires |rest| >= 1
    ensures JoinFields([""] + rest, sep) == [sep] + JoinFields(rest, sep)
  {
    assert ([""] + rest)[1..] == rest;
  }

  lemma JoinCharFirst(c: char, rest: seq<string>, sep: char)
    requires |rest| >= 1
    ensures JoinFields([[c] + rest[0]] + rest[1..], sep) == [c] + JoinFields(rest, sep)
  {
    var fields := [[c] + rest[0]] + rest[1..];
    assert fields[1..] == rest[1..];
  }

  /** A field free of the separator, followed by the separator, is split off as one field. */
  lemma {:induction false} SplitAfterField(a: string, b: string, sep: char)
    requires sep !in a
    ensures Split(a + [sep] + b, sep) == [a] + Split(b, sep)
    decreases |a|
  {
    var s := a + [sep] + b;
    if a == [] {
      assert s == [sep] + b;
      assert s[1..] == b;
    } else {
      assert s[0] == a[0] && s[0] != sep;
      assert s[1..] == a[1..] + [sep] + b;
      SplitAfterField(a[1..], b, sep);
      var rest := Split(s[1..], sep);
      assert rest == [a[1..]] + Split(b, sep);
      assert Split(s, sep) == [[a[0]] + rest[0]] + rest[1..];
      assert [a[0]] + a[1..] == a;
    }
  }

  /** Splitting a join of separator-free fields gives back the fields. */
  lemma {:induction false} SplitJoin(fields: seq<string>, sep: char)
    requires |fields| >= 1
    requires forall k :: 0 <= k < |fields| ==> sep !in fields[k]
    ensures Split(JoinFields(fields, sep), sep) == fields
    decreases |fields|
  {
    if |fields| == 1 {
      var r := Split(fields[0], sep);
      assert |r[0]| == |fields[0]|;
      assert r[0] == fields[0];
      assert r == [fields[0]];
    } else {
      SplitJoin(fields[1..], sep);
      SplitAfterField(fields[0], JoinFields(fields[1..], sep), sep);
      assert [fields[0]] + fields[1..] == fields;
    }
  }

  /**
   * `field` is the field that starts at `start`: right after a separator
   * that is the first one in `s`, up to the next separator or the end.
   */
  predicate SecondFieldAt(s: string, sep: char, start: int, field: string) {
    && 0 < start && start + |field| <= |s|
    && sep !in s[..start - 1] && s[start - 1] == sep
    && s[start..start + |field|] == field
    && (start + |field| == |s| || s[start + |field|] == sep)
  }

  /** The second field of a split starts right after the first separator. */
  lemma SecondField(s: string, sep: char)
    requires sep in s
    ensures |Split(s, sep)| >= 2
    ensures SecondFieldAt(s, sep, |Split(s, sep)[0]| + 1, Split(s, sep)[1])
  {
    SplitTail(s, sep);
    var start := |Split(s, sep)[0]| + 1;
    FieldAt(s, sep, Split(s, sep)[0], Split(s[start..], sep)[0]);
  }

  /** Sequence arithmetic behind `SecondField`, free of `Split`. */
  lemma FieldAt(s: string, sep: char, first: string, field: string)
    requires first <= s && |first| < |s| && s[|first|] == sep && sep !in first
    requires field <= s[|first| + 1..]
    requires |field| == |s[|first| + 1..]| || s[|first| + 1..][|field|] == sep
    ensures SecondFieldAt(s, sep, |first| + 1, field)
  {
    assert s[..|first|] == first;
  }

  predicate IsDigits(s: string) {
    forall k :: 0 <= k < |s| ==> '0' <= s[k] <= '9'
  }

  /** The number a string of decimal digits denotes. */
  function DecimalValue(s: string): nat
    requires IsDigits(s)
  {
    if s == [] then 0 else 10 * DecimalValue(s[..|s| - 1]) + (s[|s| - 1] as int - '0' as int)
  }

  function DigitChar(d: nat): (c: char)
    requires d < 10
    ensures '0' <= c <= '9' && c as int - '0' as int == d
  {
    (d + '0' as int) as char
  }

  /** `str(n)` for a natural number: its shortest decimal digits. */
  function NatToString(n: nat): (s: string)
    ensures |s| >= 1 && IsDigits(s)
    ensures DecimalValue(s) == n
    ensures n > 0 ==> s[0] != '0'
  {
    if n < 10 then [DigitChar(n)]
    else
      var prefix := NatToString(n / 10);
      assert (prefix + [DigitChar(n % 10)])[..|prefix|] == prefix;
      prefix + [DigitChar(n % 10)]
  }

  /** One digit exactly for the numbers below ten; a longer rendering never starts with `0`. */
  lemma NatToStringCanonical(n: nat)
    ensures n < 10 <==> |NatToString(n)| == 1
    ensures |NatToString(n)| > 1 ==> NatToString(n)[0] != '0'
  {
  }

  /** Different numbers are rendered differently. */
  lemma NatToStringInjective(m: nat, n: nat)
    requires NatToString(m) == NatToString(n)
    ensures m == n
  {
    assert DecimalValue(NatToString(m)) == DecimalValue(NatToString(n));
  }
}
