/** The two string primitives the core relies on: `String.prototype.split` with a
    one-character separator, and `parseInt` on decimal text. */
module Text {
  import opened Json

  /** `s.split(sep)`: the pieces between separators, always at least one. */
  function Split(s: string, sep: char): (parts: seq<string>)
    ensures |parts| >= 1
  {
    if s == [] then [""]
    else
      var rest := Split(s[1..], sep);
      if s[0] == sep then [""] + rest
      else [[s[0]] + rest[0]] + rest[1..]
  }

  /** `parts.join(sep)`, the inverse of Split. */
  function Join(parts: seq<string>, sep: char): string
    requires |parts| >= 1
  {
    if |parts| == 1 then parts[0]
    else parts[0] + [sep] + Join(parts[1..], sep)
  }

  /** Splitting loses nothing: joining the pieces back gives the text. */
  lemma {:induction false} JoinSplit(s: string, sep: char)
    ensures Join(Split(s, sep), sep) == s
  {
    if s != [] {
      var rest := Split(s[1..], sep);
      JoinSplit(s[1..], sep);
      if s[0] == sep {
        assert Split(s, sep)[1..] == rest;
      } else {
        var parts := Split(s, sep);
        assert parts[1..] == rest[1..];
        if |rest| > 1 {
          assert Join(rest, sep) == rest[0] + [sep] + Join(rest[1..], sep);
        }
      }
    }
  }

  /** No piece contains the separator. */
  lemma {:induction false} SplitPiecesFree(s: string, sep: char)
    ensures forall p :: p in Split(s, sep) ==> sep !in p
  {
    if s != [] {
      SplitPiecesFree(s[1..], sep);
      var rest := Split(s[1..], sep);
      if s[0] != sep {
        assert rest[0] in rest;
        forall p | p in Split(s, sep)
          ensures sep !in p
        {
          if p != [s[0]] + rest[0] {
            assert p in rest[1..];
          }
        }
      }
    }
  }

  /** The first piece is the text up to the first separator: a prefix free of
      the separator, followed by the separator unless it is the whole text. */
  lemma {:induction false} FirstPiece(s: string, sep: char)
    ensures Split(s, sep)[0] <= s
    ensures sep !in Split(s, sep)[0]
    ensures |Split(s, sep)[0]| < |s| ==> s[|Split(s, sep)[0]|] == sep
  {
    if s != [] {
      FirstPiece(s[1..], sep);
    }
  }

  lemma {:induction false} FirstPartPrefixOfJoin(parts: seq<string>, sep: char)
    requires |parts| >= 1
    ensures parts[0] <= Join(parts, sep)
  {
  }

  /** Only a text holding the separator splits into more than one piece, and
      then it starts with the first piece, the separator and the second piece. */
  lemma SplitInTwo(s: string, sep: char)
    ensures |Split(s, sep)| == 1 <==> sep !in s
    ensures |Split(s, sep)| >= 2 ==> Split(s, sep)[0] + [sep] + Split(s, sep)[1] <= s
  {
    var parts := Split(s, sep);
    JoinSplit(s, sep);
    SplitPiecesFree(s, sep);
    assert parts[0] in parts;
    if |parts| >= 2 {
      var tail := Join(parts[1..], sep);
      assert s == parts[0] + [sep] + tail;
      assert s[|parts[0]|] == sep;
      FirstPartPrefixOfJoin(parts[1..], sep);
    }
  }

  /** A text without the separator is its own only piece. */
  lemma SplitWithoutSeparator(s: string, sep: char)
    requires sep !in s
    ensures Split(s, sep) == [s]
  {
    SplitInTwo(s, sep);
    JoinSplit(s, sep);
  }

  /** Splitting at a first separator: the text before it is the first piece,
      the rest splits on its own. */
  lemma {:induction false} SplitAtSeparator(a: string, b: string, sep: char)
    requires sep !in a
    ensures Split(a + [sep] + b, sep) == [a] + Split(b, sep)
  {
    var t := a + [sep] + b;
    if a == [] {
      assert t[1..] == b;
    } else {
      assert t[1..] == a[1..] + [sep] + b;
      SplitAtSeparator(a[1..], b, sep);
      assert [a[0]] + a[1..] == a;
    }
  }

  /** The second piece runs up to the next separator or to the end of the text. */
  lemma SecondPiece(s: string, sep: char)
    ensures var parts := Split(s, sep);
      |parts| >= 2 ==>
        var n := |parts[0]| + 1 + |parts[1]|;
        n <= |s| && (n == |s| || s[n] == sep)
  {
    var parts := Split(s, sep);
    if |parts| < 2 {
      return;
    }
    SplitInTwo(s, sep);
    FirstPiece(s, sep);
    var rest := s[|parts[0]| + 1..];
    assert s == parts[0] + [sep] + rest;
    SplitAtSeparator(parts[0], rest, sep);
    assert parts[1] == Split(rest, sep)[0];
    FirstPiece(rest, sep);
  }

  // ----- parseInt -----

  predicate IsDigit(c: char) {
    '0' <= c <= '9'
  }

  /** The longest prefix of decimal digits. */
  function LeadingDigits(s: string): (d: string)
    ensures d <= s
    ensures forall i :: 0 <= i < |d| ==> IsDigit(d[i])
    ensures |d| < |s| ==> !IsDigit(s[|d|])
  {
    if s == [] || !IsDigit(s[0]) then []
    else [s[0]] + LeadingDigits(s[1..])
  }

  function DigitsValue(d: string): nat
    requires forall i :: 0 <= i < |d| ==> IsDigit(d[i])
  {
    if d == [] then 0
    else
      assert IsDigit(d[|d| - 1]);
      DigitsValue(d[..|d| - 1]) * 10 + (d[|d| - 1] as int - '0' as int)
  }

  /** The text after an optional leading sign. */
  function Magnitude(s: string): string {
    if s != [] && (s[0] == '-' || s[0] == '+') then s[1..] else s
  }

  predicate Negative(s: string) {
    s != [] && s[0] == '-'
  }

  /** `parseInt(s)` for decimal text: an optional sign and the value of the
      leading digits after it, or None (JavaScript's NaN) when no digit
      follows the sign. */
  function ParseInt(s: string): (r: Option<int>)
    ensures r.Some? <==> LeadingDigits(Magnitude(s)) != []
    ensures r.Some? && !Negative(s) ==> r.value >= 0
    ensures r.Some? && Negative(s) ==> r.value <= 0
  {
    var d := LeadingDigits(Magnitude(s));
    if d == [] then None
    else if Negative(s) then Some(-(DigitsValue(d) as int))
    else Some(DigitsValue(d))
  }

  /** The decimal text of a number, as a template literal renders it. */
  function ShowNat(n: nat): (s: string)
    ensures s != [] && forall i :: 0 <= i < |s| ==> IsDigit(s[i])
  {
    var last := ['0' + (n % 10) as char];
    if n < 10 then last else ShowNat(n / 10) + last
  }

  lemma {:induction false} ShowNatValue(n: nat)
    ensures DigitsValue(ShowNat(n)) == n
  {
    var s := ShowNat(n);
    if n >= 10 {
      ShowNatValue(n / 10);
      assert s[..|s| - 1] == ShowNat(n / 10);
    }
  }

  lemma {:induction false} LeadingDigitsOfDigits(s: string)
    requires forall i :: 0 <= i < |s| ==> IsDigit(s[i])
    ensures LeadingDigits(s) == s
  {
    if s != [] {
      LeadingDigitsOfDigits(s[1..]);
    }
  }

  /** Reading back a rendered number gives the number. */
  lemma ParseIntShowNat(n: nat)
    ensures ParseInt(ShowNat(n)) == Some(n)
  {
    var s := ShowNat(n);
    assert IsDigit(s[0]);
    assert Magnitude(s) == s;
    LeadingDigitsOfDigits(s);
    ShowNatValue(n);
  }

  /** A minus sign in front of a rendered number reads back as its negation. */
  lemma ParseIntNegated(n: nat)
    ensures ParseInt("-" + ShowNat(n)) == Some(-(n as int))
  {
    var s := "-" + ShowNat(n);
    assert Negative(s) && Magnitude(s) == ShowNat(n);
    LeadingDigitsOfDigits(ShowNat(n));
    ShowNatValue(n);
  }
}
