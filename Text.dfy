/**
 * String helpers: JavaScript's rendering of a non-negative integer in a
 * template literal or `toString()`, its decimal reading back, and the
 * line/field splitting that the exports' formats are read with.
 */
module Text {

  predicate IsDigit(c: char) {
    '0' <= c <= '9'
  }

  function DigitChar(d: nat): (c: char)
    requires d < 10
    ensures IsDigit(c)
  {
    "0123456789"[d]
  }

  /** Decimal notation without leading zeros, as `String(n)` prints a non-negative integer. */
  function NatToString(n: nat): (s: string)
    ensures |s| > 0
    ensures forall i :: 0 <= i < |s| ==> IsDigit(s[i])
  {
    if n < 10 then [DigitChar(n)] else NatToString(n / 10) + [DigitChar(n % 10)]
  }

  /** Reads a string of decimal digits. */
  function ParseNat(s: string): nat
    requires forall i :: 0 <= i < |s| ==> IsDigit(s[i])
  {
    if s == [] then 0
    else
      var last := s[|s| - 1];
      assert IsDigit(last);
      assert last as int >= '0' as int;
      10 * ParseNat(s[..|s| - 1]) + (last as int - '0' as int)
  }

  /** Reading back what `NatToString` printed gives the number again. */
  lemma {:induction false} ParseNatToString(n: nat)
    ensures ParseNat(NatToString(n)) == n
  {
    if n >= 10 {
      var s := NatToString(n);
      ParseNatToString(n / 10);
      assert s[..|s| - 1] == NatToString(n / 10);
    }
  }

  /** Distinct numbers print differently (so ids built from counters are distinct). */
  lemma NatToStringInjective(m: nat, n: nat)
    requires NatToString(m) == NatToString(n)
    ensures m == n
  {
    ParseNatToString(m);
    ParseNatToString(n);
  }

  /** `s.split(sep)`: the pieces between separators; there is always at least one piece. */
  function Split(s: string, sep: char): (pieces: seq<string>)
    ensures |pieces| > 0
    decreases |s|
  {
    if s == [] then [[]]
    else
      var rest := Split(s[1..], sep);
      if s[0] == sep then [[]] + rest
      else [[s[0]] + rest[0]] + rest[1..]
  }

  /** A separator-free prefix followed by a separator is cut off as the first piece. */
  lemma {:induction false} SplitPrefix(a: string, sep: char, b: string)
    requires sep !in a
    ensures Split(a + [sep] + b, sep) == [a] + Split(b, sep)
  {
    if a == [] {
      assert a + [sep] + b == [sep] + b;
      assert ([sep] + b)[1..] == b;
    } else {
      SplitPrefix(a[1..], sep, b);
      assert (a + [sep] + b)[1..] == a[1..] + [sep] + b;
      assert [a[0]] + a[1..] == a;
    }
  }

  /** A separator-free string is a single piece. */
  lemma {:induction false} SplitWhole(a: string, sep: char)
    requires sep !in a
    ensures Split(a, sep) == [a]
  {
    if a != [] {
      SplitWhole(a[1..], sep);
      assert [a[0]] + a[1..] == a;
    }
  }

  /** Each row followed by a newline, as the exports and the share text are built. */
  function JoinLines(rows: seq<string>): string {
    if rows == [] then "" else rows[0] + "\n" + JoinLines(rows[1..])
  }

  /** Appending a row appends that row and its newline. */
  lemma {:induction false} JoinLinesSnoc(rows: seq<string>, row: string)
    ensures JoinLines(rows + [row]) == JoinLines(rows) + row + "\n"
  {
    if rows == [] {
      assert rows + [row] == [row];
    } else {
      assert (rows + [row])[1..] == rows[1..] + [row];
      JoinLinesSnoc(rows[1..], row);
    }
  }

  /** Growing a prefix of `rows` by one row appends that row and its newline. */
  lemma JoinLinesStep(pre: seq<string>, rows: seq<string>, i: nat)
    requires i < |rows|
    ensures JoinLines(pre + rows[..i + 1]) == JoinLines(pre + rows[..i]) + rows[i] + "\n"
  {
    assert pre + rows[..i + 1] == (pre + rows[..i]) + [rows[i]];
    JoinLinesSnoc(pre + rows[..i], rows[i]);
  }

  /** Newline-free rows are read back line by line; the final newline leaves an empty last piece. */
  lemma {:induction false} SplitJoinLines(rows: seq<string>)
    requires forall i :: 0 <= i < |rows| ==> '\n' !in rows[i]
    ensures Split(JoinLines(rows), '\n') == rows + [""]
  {
    if rows == [] {
      assert Split("", '\n') == [""];
    } else {
      SplitJoinLines(rows[1..]);
      SplitPrefix(rows[0], '\n', JoinLines(rows[1..]));
      assert rows == [rows[0]] + rows[1..];
    }
  }

  /** Newline-free rows followed by an unterminated newline-free last line are read back line by line. */
  lemma {:induction false} SplitJoinLinesThen(rows: seq<string>, last: string)
    requires forall i :: 0 <= i < |rows| ==> '\n' !in rows[i]
    requires '\n' !in last
    ensures Split(JoinLines(rows) + last, '\n') == rows + [last]
  {
    if rows == [] {
      assert JoinLines(rows) + last == last;
      SplitWhole(last, '\n');
    } else {
      SplitJoinLinesThen(rows[1..], last);
      assert JoinLines(rows) + last == rows[0] + "\n" + (JoinLines(rows[1..]) + last);
      SplitPrefix(rows[0], '\n', JoinLines(rows[1..]) + last);
      assert rows == [rows[0]] + rows[1..];
    }
  }

  /** Fields joined with a separator that none of them contains. */
  function JoinFields(fields: seq<string>, sep: char): string
    requires |fields| > 0
  {
    if |fields| == 1 then fields[0] else fields[0] + [sep] + JoinFields(fields[1..], sep)
  }

  /** Splitting undoes joining when no field contains the separator. */
  lemma {:induction false} SplitJoinFields(fields: seq<string>, sep: char)
    requires |fields| > 0
    requires forall i :: 0 <= i < |fields| ==> sep !in fields[i]
    ensures Split(JoinFields(fields, sep), sep) == fields
  {
    if |fields| == 1 {
      SplitWhole(fields[0], sep);
    } else {
      SplitJoinFields(fields[1..], sep);
      SplitPrefix(fields[0], sep, JoinFields(fields[1..], sep));
      assert fields == [fields[0]] + fields[1..];
    }
  }

  /** A printed number holds neither a newline nor any other non-digit separator. */
  lemma NatToStringHasNo(n: nat, c: char)
    requires !IsDigit(c)
    ensures c !in NatToString(n)
  {
  }
}
