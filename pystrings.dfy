/** The pieces of Python's `str` behaviour the modelled code depends on:
    `s.split(sep)` with an explicit one-character separator, `sep.join(...)`,
    and `str(n)` of an integer. */
module PyStrings {

  /** Index of the first occurrence of `c` in `s`. */
  function IndexOf(s: string, c: char): (i: nat)
    requires c in s
    ensures i < |s| && s[i] == c && c !in s[..i]
  {
    if s[0] == c then 0
    else
      var j := IndexOf(s[1..], c);
      assert s[..j + 1] == [s[0]] + s[1..][..j];
      j + 1
  }

  /** Index of the last occurrence of `c` in `s`, or -1 when there is none
      (Python's `str.rfind`). */
  function LastIndexOf(s: string, c: char): (i: int)
    ensures -1 <= i < |s|
    ensures i >= 0 ==> s[i] == c
    ensures forall k :: i < k < |s| ==> s[k] != c
  {
    if s == [] then -1
    else if s[|s| - 1] == c then |s| - 1
    else LastIndexOf(s[..|s| - 1], c)
  }

  /** Python's `s.split(sep)`: the maximal runs between separators, empty
      runs included, so the result is never empty and `",".split(",")` is
      `["", ""]`. No piece is trimmed. */
  function Split(s: string, sep: char): (pieces: seq<string>)
    ensures |pieces| >= 1
    ensures forall k :: 0 <= k < |pieces| ==> sep !in pieces[k]
    decreases |s|
  {
    if sep !in s then [s]
    else
      var i := IndexOf(s, sep);
      [s[..i]] + Split(s[i + 1..], sep)
  }

  /** Python's `sep.join(pieces)`. */
  function Join(pieces: seq<string>, sep: char): string
  {
    if pieces == [] then ""
    else if |pieces| == 1 then pieces[0]
    else pieces[0] + [sep] + Join(pieces[1..], sep)
  }

  /** Joining the pieces of a split gives back the string. */
  lemma {:induction false} JoinSplit(s: string, sep: char)
    ensures Join(Split(s, sep), sep) == s
    decreases |s|
  {
    if sep in s {
      var i := IndexOf(s, sep);
      var a, b := s[..i], s[i + 1..];
      SplitAround(s, i);
      assert Split(s, sep) == [a] + Split(b, sep);
      JoinCons(a, Split(b, sep), sep);
      JoinSplit(b, sep);
    }
  }

  lemma SplitAround(s: string, i: nat)
    requires i < |s|
    ensures s == s[..i] + [s[i]] + s[i + 1..]
  {
  }

  lemma JoinCons(a: string, pieces: seq<string>, sep: char)
    requires |pieces| >= 1
    ensures Join([a] + pieces, sep) == a + [sep] + Join(pieces, sep)
  {
    assert ([a] + pieces)[0] == a && ([a] + pieces)[1..] == pieces;
  }

  lemma FirstSeparator(a: string, sep: char, b: string)
    requires sep !in a
    ensures sep in a + [sep] + b && IndexOf(a + [sep] + b, sep) == |a|
  {
    var s := a + [sep] + b;
    assert s[|a|] == sep;
    assert s[..|a|] == a;
  }

  /** Splitting a join of separator-free pieces gives back the pieces. */
  lemma {:induction false} SplitJoin(pieces: seq<string>, sep: char)
    requires |pieces| >= 1
    requires forall k :: 0 <= k < |pieces| ==> sep !in pieces[k]
    ensures Split(Join(pieces, sep), sep) == pieces
  {
    if |pieces| > 1 {
      var a, tail := pieces[0], pieces[1..];
      var rest := Join(tail, sep);
      var s := a + [sep] + rest;
      assert Join(pieces, sep) == s;
      FirstSeparator(a, sep, rest);
      assert s[..|a|] == a;
      assert s[|a| + 1..] == rest;
      assert Split(s, sep) == [a] + Split(rest, sep);
      SplitJoin(tail, sep);
      assert pieces == [a] + tail;
    }
  }

  /** `d` occurs in `s` at `i` bounded by separators or by the ends of `s`. */
  ghost predicate FieldAt(s: string, sep: char, d: string, i: int)
  {
    && 0 <= i && i + |d| <= |s| && s[i..i + |d|] == d
    && (i == 0 || s[i - 1] == sep)
    && (i + |d| == |s| || s[i + |d|] == sep)
  }

  lemma FieldAtShift(s: string, sep: char, d: string, i: nat, j: nat)
    requires sep in s && i == IndexOf(s, sep)
    ensures FieldAt(s[i + 1..], sep, d, j) <==> FieldAt(s, sep, d, j + i + 1)
  {
    var t := s[i + 1..];
    if 0 <= j && j + |d| <= |t| {
      assert forall k :: j <= k < j + |d| ==> t[k] == s[k + i + 1];
      assert t[j..j + |d|] == s[j + i + 1..j + i + 1 + |d|];
      if j == 0 {
        assert s[j + i] == sep;
      } else {
        assert t[j - 1] == s[j + i];
      }
      if j + |d| < |t| {
        assert t[j + |d|] == s[j + i + 1 + |d|];
      }
    }
  }

  /** Every piece of a split is a separator-free field of the string. */
  lemma {:induction false} SplitPieceIsField(s: string, sep: char, d: string)
    requires d in Split(s, sep)
    ensures sep !in d && exists i :: FieldAt(s, sep, d, i)
    decreases |s|
  {
    if sep !in s {
      assert d == s && s[0..|s|] == s;
      assert FieldAt(s, sep, d, 0);
    } else {
      var i0 := IndexOf(s, sep);
      var t := s[i0 + 1..];
      assert Split(s, sep) == [s[..i0]] + Split(t, sep);
      if d == s[..i0] {
        assert s[0..|d|] == d;
        assert FieldAt(s, sep, d, 0);
      } else {
        SplitPieceIsField(t, sep, d);
        var j :| FieldAt(t, sep, d, j);
        FieldAtShift(s, sep, d, i0, j);
      }
    }
  }

  /** A field starting at 0 ends at the first separator. */
  lemma LeadingField(s: string, sep: char, d: string)
    requires sep in s && sep !in d && FieldAt(s, sep, d, 0)
    ensures d == s[..IndexOf(s, sep)]
  {
    var i0 := IndexOf(s, sep);
    NoSeparatorBefore(s, sep);
    assert forall k :: 0 <= k < |d| ==> s[k] == d[k];
    assert |d| == i0;
  }

  /** Without separators the only field is the whole string. */
  lemma OnlyField(s: string, sep: char, d: string, i: nat)
    requires sep !in s && FieldAt(s, sep, d, i)
    ensures d == s
  {
    assert forall k :: 0 <= k < |s| ==> s[k] != sep;
    assert i == 0 && i + |d| == |s|;
    assert s[0..|s|] == s;
  }

  /** A field preceded by a separator lies after the first separator. */
  lemma LaterField(s: string, sep: char, d: string, i: nat)
    requires sep in s && i > 0 && FieldAt(s, sep, d, i)
    ensures IndexOf(s, sep) <= i - 1
  {
    NoSeparatorBefore(s, sep);
  }

  lemma NoSeparatorBefore(s: string, sep: char)
    requires sep in s
    ensures forall k :: 0 <= k < IndexOf(s, sep) ==> s[k] != sep
  {
    var i0 := IndexOf(s, sep);
    assert forall k :: 0 <= k < i0 ==> s[k] == s[..i0][k];
  }

  /** A field after the first separator is a field of the rest of the string. */
  lemma FieldInRest(s: string, sep: char, d: string, i: nat)
    requires sep in s && i > 0 && FieldAt(s, sep, d, i)
    ensures IndexOf(s, sep) <= i - 1
    ensures FieldAt(s[IndexOf(s, sep) + 1..], sep, d, i - IndexOf(s, sep) - 1)
  {
    LaterField(s, sep, d, i);
    FieldAtShift(s, sep, d, IndexOf(s, sep), i - IndexOf(s, sep) - 1);
  }

  /** Every separator-free field of the string is a piece of its split. */
  lemma {:induction false} FieldIsSplitPiece(s: string, sep: char, d: string, i: nat)
    requires sep !in d && FieldAt(s, sep, d, i)
    ensures d in Split(s, sep)
    decreases |s|
  {
    if sep !in s {
      OnlyField(s, sep, d, i);
    } else if i == 0 {
      LeadingField(s, sep, d);
    } else {
      var i0 := IndexOf(s, sep);
      var t := s[i0 + 1..];
      FieldInRest(s, sep, d, i);
      FieldIsSplitPiece(t, sep, d, i - i0 - 1);
    }
  }

  /** A string is one of the pieces of `s.split(sep)` exactly when it holds no
      separator and occurs in `s` delimited by separators or the ends of `s`:
      the split does no trimming and no other normalisation. */
  lemma SplitFields(s: string, sep: char, d: string)
    ensures d in Split(s, sep) <==> sep !in d && exists i :: FieldAt(s, sep, d, i)
  {
    if d in Split(s, sep) {
      SplitPieceIsField(s, sep, d);
    }
    if sep !in d && exists i :: FieldAt(s, sep, d, i) {
      var i :| FieldAt(s, sep, d, i);
      FieldIsSplitPiece(s, sep, d, i);
    }
  }

  function DigitChar(d: nat): (c: char)
    requires d < 10
    ensures '0' <= c <= '9' && c as int - '0' as int == d
  {
    ('0' as int + d) as char
  }

  /** Decimal digits of `n`, most significant first, without leading zeros. */
  function NatToString(n: nat): (s: string)
    ensures |s| >= 1
    ensures forall k :: 0 <= k < |s| ==> '0' <= s[k] <= '9'
    ensures s[0] == '0' ==> n == 0
    ensures |s| > 1 ==> s[0] != '0'
  {
    if n < 10 then [DigitChar(n)]
    else NatToString(n / 10) + [DigitChar(n % 10)]
  }

  /** Python's `str(i)` for an integer: a minus sign for negatives, then the
      decimal digits. */
  function IntToString(i: int): string
  {
    if i < 0 then "-" + NatToString(-i) else NatToString(i)
  }

  /** The value of a string of decimal digits, most significant first. */
  function DigitsValue(s: string): int
  {
    if s == [] then 0
    else DigitsValue(s[..|s| - 1]) * 10 + (s[|s| - 1] as int - '0' as int)
  }

  /** Python's `int(s)` on the strings `IntToString` produces. */
  function ParseInt(s: string): int
  {
    if |s| > 0 && s[0] == '-' then -DigitsValue(s[1..]) else DigitsValue(s)
  }

  lemma {:induction false} NatToStringValue(n: nat)
    ensures DigitsValue(NatToString(n)) == n
  {
    if n >= 10 {
      NatToStringValue(n / 10);
      var s := NatToString(n / 10) + [DigitChar(n % 10)];
      assert s[..|s| - 1] == NatToString(n / 10);
      assert DigitsValue(s) == (n / 10) * 10 + n % 10;
    }
  }

  /** `str` of an integer reads back as the same integer. */
  lemma IntToStringRoundTrip(i: int)
    ensures ParseInt(IntToString(i)) == i
  {
    if i < 0 {
      var s := "-" + NatToString(-i);
      NatToStringValue(-i);
      assert s[0] == '-' && s[1..] == NatToString(-i);
    } else {
      var s := NatToString(i);
      NatToStringValue(i);
      assert '0' <= s[0] <= '9';
    }
  }
}
