/** String operations the workflow relies on: Python's `str.split` on a
    one-character separator, its inverse `join`, and `str(i)` for the
    non-negative row numbers used in stage-3 file names. */
module Text {

  /** Python's `s.split(sep)` for a one-character separator: the text between
      consecutive separators, in order. There is always at least one field. */
  function Split(s: string, sep: char): (fields: seq<string>)
    ensures |fields| >= 1
  {
    if s == [] then [""]
    else
      var rest := Split(s[1..], sep);
      if s[0] == sep then [""] + rest
      else [[s[0]] + rest[0]] + rest[1..]
  }

  /** No field of a split contains the separator. */
  lemma {:induction false} SplitFieldsLackSep(s: string, sep: char)
    ensures forall k :: 0 <= k < |Split(s, sep)| ==> sep !in Split(s, sep)[k]
  {
    if s != [] {
      SplitFieldsLackSep(s[1..], sep);
      var rest := Split(s[1..], sep);
      if s[0] != sep {
        assert forall c :: c in [s[0]] + rest[0] ==> c == s[0] || c in rest[0];
      }
    }
  }

  /** Python's `sep.join(fields)`. */
  function JoinWith(fields: seq<string>, sep: char): string
    requires |fields| >= 1
  {
    if |fields| == 1 then fields[0]
    else fields[0] + [sep] + JoinWith(fields[1..], sep)
  }

  /** The last `sep`-separated field of `s`, as `s.split(sep)[-1]`. */
  function LastField(s: string, sep: char): string
  {
    var fields := Split(s, sep);
    fields[|fields| - 1]
  }

  lemma {:induction false} SplitWithoutSep(s: string, sep: char)
    requires sep !in s
    ensures Split(s, sep) == [s]
  {
    if s != [] {
      SplitWithoutSep(s[1..], sep);
      assert [s[0]] + s[1..] == s;
    }
  }

  /** Splitting at one separator splits the two sides independently. */
  lemma {:induction false} SplitAtSep(a: string, sep: char, b: string)
    ensures Split(a + [sep] + b, sep) == Split(a, sep) + Split(b, sep)
  {
    if a == [] {
      assert a + [sep] + b == [sep] + b;
      SplitCons(sep, b, sep);
    } else {
      SplitAtSep(a[1..], sep, b);
      assert a + [sep] + b == [a[0]] + (a[1..] + [sep] + b);
      assert a == [a[0]] + a[1..];
      SplitCons(a[0], a[1..] + [sep] + b, sep);
      SplitCons(a[0], a[1..], sep);
      ConsField(a[0], sep, Split(a[1..], sep), Split(b, sep));
    }
  }

  /** One step of `Split`: the first character either ends the first field
      or joins it. */
  lemma SplitCons(c: char, t: string, sep: char)
    ensures Split([c] + t, sep) ==
      if c == sep then [""] + Split(t, sep)
      else [[c] + Split(t, sep)[0]] + Split(t, sep)[1..]
  {
    var s := [c] + t;
    assert s[0] == c && s[1..] == t;
  }

  /** Adding a character to the first field commutes with appending fields. */
  lemma ConsField(c: char, sep: char, left: seq<string>, right: seq<string>)
    requires |left| >= 1
    ensures var rest := left + right;
      (if c == sep then [""] + rest else [[c] + rest[0]] + rest[1..]) ==
      (if c == sep then [""] + left else [[c] + left[0]] + left[1..]) + right
  {
    var rest := left + right;
    assert rest[0] == left[0];
    assert rest[1..] == left[1..] + right;
  }

  /** Joining the fields of a split gives back the original text. */
  lemma {:induction false} JoinSplit(s: string, sep: char)
    ensures JoinWith(Split(s, sep), sep) == s
  {
    if s != [] {
      var rest := Split(s[1..], sep);
      JoinSplit(s[1..], sep);
      if s[0] == sep {
        assert ([""] + rest)[1..] == rest;
      } else {
        var fields := [[s[0]] + rest[0]] + rest[1..];
        assert fields[1..] == rest[1..];
        if |rest| > 1 {
          assert JoinWith(rest, sep) == rest[0] + [sep] + JoinWith(rest[1..], sep);
        }
        assert [s[0]] + s[1..] == s;
      }
    }
  }

  /** Splitting a join of separator-free fields gives back the fields. */
  lemma {:induction false} SplitJoin(fields: seq<string>, sep: char)
    requires |fields| >= 1
    requires forall k :: 0 <= k < |fields| ==> sep !in fields[k]
    ensures Split(JoinWith(fields, sep), sep) == fields
  {
    SplitWithoutSep(fields[0], sep);
    if |fields| > 1 {
      SplitJoin(fields[1..], sep);
      SplitAtSep(fields[0], sep, JoinWith(fields[1..], sep));
      assert [fields[0]] + fields[1..] == fields;
    }
  }

  /** The last field is what follows the last separator: appending a
      separator and a separator-free text makes that text the last field. */
  lemma LastFieldAfterSep(prefix: string, sep: char, id: string)
    requires sep !in id
    ensures LastField(prefix + [sep] + id, sep) == id
  {
    SplitAtSep(prefix, sep, id);
    SplitWithoutSep(id, sep);
  }

  /** The last field is a separator-free suffix of the text, and it is the whole
      text exactly when the text has no separator. */
  lemma LastFieldIsSuffix(s: string, sep: char)
    ensures var f := LastField(s, sep);
      sep !in f && |f| <= |s| && s[|s| - |f|..] == f &&
      (|f| == |s| <==> sep !in s) &&
      (|f| < |s| ==> s[|s| - |f| - 1] == sep)
  {
    var fields := Split(s, sep);
    var f := fields[|fields| - 1];
    SplitFieldsLackSep(s, sep);
    JoinSplit(s, sep);
    if |fields| == 1 {
      assert s == f;
    } else {
      var init := fields[..|fields| - 1];
      JoinLast(fields, sep);
      assert s == JoinWith(init, sep) + [sep] + f;
      assert s[|s| - |f| - 1] == sep;
      assert s[|s| - |f|..] == f;
    }
  }

  lemma {:induction false} JoinLast(fields: seq<string>, sep: char)
    requires |fields| >= 2
    ensures JoinWith(fields, sep) ==
      JoinWith(fields[..|fields| - 1], sep) + [sep] + fields[|fields| - 1]
  {
    if |fields| > 2 {
      JoinLast(fields[1..], sep);
      assert fields[1..][..|fields| - 2] == fields[..|fields| - 1][1..];
    }
  }

  predicate IsDigit(c: char)
  {
    '0' <= c <= '9'
  }

  predicate AllDigits(s: string)
  {
    forall k :: 0 <= k < |s| ==> IsDigit(s[k])
  }

  function DigitChar(d: nat): (c: char)
    requires d < 10
    ensures IsDigit(c) && c as int - '0' as int == d
  {
    (d + '0' as int) as char
  }

  /** Python's `str(n)` for a non-negative integer: decimal digits without
      leading zeros. */
  function Decimal(n: nat): (s: string)
    ensures |s| >= 1 && AllDigits(s)
    ensures s[0] == '0' ==> n == 0
  {
    if n < 10 then [DigitChar(n)] else Decimal(n / 10) + [DigitChar(n % 10)]
  }

  /** Reads a string of decimal digits back as a number. */
  function ParseDecimal(s: string): nat
    requires AllDigits(s)
  {
    if s == [] then 0
    else ParseDecimal(s[..|s| - 1]) * 10 + (s[|s| - 1] as int - '0' as int)
  }

  lemma {:induction false} ParseDecimalOfDecimal(n: nat)
    ensures ParseDecimal(Decimal(n)) == n
  {
    if n >= 10 {
      ParseDecimalOfDecimal(n / 10);
      var s := Decimal(n);
      assert s[..|s| - 1] == Decimal(n / 10);
    }
  }

  /** Different numbers have different decimal texts. */
  lemma DecimalInjective(m: nat, n: nat)
    ensures Decimal(m) == Decimal(n) <==> m == n
  {
    if Decimal(m) == Decimal(n) {
      ParseDecimalOfDecimal(m);
      ParseDecimalOfDecimal(n);
    }
  }

  /** `a + x == a + y` forces `x == y`. */
  lemma CancelPrefix(a: string, x: string, y: string)
    requires a + x == a + y
    ensures x == y
  {
    assert x == (a + x)[|a|..];
  }

  /** `x + b == y + b` forces `x == y`. */
  lemma CancelSuffix(x: string, y: string, b: string)
    requires x + b == y + b
    ensures x == y
  {
    assert x == (x + b)[..|x|];
  }
}
