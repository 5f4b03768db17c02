/** The JavaScript string operations the panels rely on, over strings of
    characters: ASCII case mapping (toLowerCase/toUpperCase), substring search
    (includes), the relational operator `<` on strings, split/join on one
    separator character, number-to-string conversion and padStart. */
module Text {

  // ---------------------------------------------------------------------------
  // Case mapping (ASCII letters only)

  predicate IsUpperAscii(c: char) { 'A' <= c <= 'Z' }
  predicate IsLowerAscii(c: char) { 'a' <= c <= 'z' }

  function LowerChar(c: char): (r: char)
    ensures !IsUpperAscii(r)
    ensures IsUpperAscii(c) ==> IsLowerAscii(r) && r as int - 'a' as int == c as int - 'A' as int
    ensures !IsUpperAscii(c) ==> r == c
  {
    if IsUpperAscii(c) then (c as int + 32) as char else c
  }

  function UpperChar(c: char): (r: char)
    ensures !IsLowerAscii(r)
    ensures IsLowerAscii(c) ==> IsUpperAscii(r) && r as int - 'A' as int == c as int - 'a' as int
    ensures !IsLowerAscii(c) ==> r == c
  {
    if IsLowerAscii(c) then (c as int - 32) as char else c
  }

  /** String.prototype.toLowerCase on ASCII: same length, character by character. */
  function Lower(s: string): (r: string)
    ensures |r| == |s|
    ensures forall i :: 0 <= i < |s| ==> r[i] == LowerChar(s[i])
  {
    seq(|s|, i requires 0 <= i < |s| => LowerChar(s[i]))
  }

  /** String.prototype.toUpperCase on ASCII: same length, character by character. */
  function Upper(s: string): (r: string)
    ensures |r| == |s|
    ensures forall i :: 0 <= i < |s| ==> r[i] == UpperChar(s[i])
  {
    seq(|s|, i requires 0 <= i < |s| => UpperChar(s[i]))
  }

  /** A lower-case letter absent from `s` in both cases is absent from `Lower(s)`. */
  lemma LowerLacks(s: string, c: char)
    requires IsLowerAscii(c) && c !in s && UpperChar(c) !in s
    ensures c !in Lower(s)
  {
    forall k | 0 <= k < |s| ensures Lower(s)[k] != c {
      if IsUpperAscii(s[k]) {
        assert UpperChar(LowerChar(s[k])) == s[k];
      }
    }
  }

  // ---------------------------------------------------------------------------
  // Substring search

  /** `needle` occurs in `hay` starting at index `i`. */
  ghost predicate OccursAt(hay: string, needle: string, i: int)
  {
    0 <= i && i + |needle| <= |hay| && hay[i..i + |needle|] == needle
  }

  /** String.prototype.includes: scans `hay` from the left for a position where
      `needle` is a prefix of the rest; the empty needle is found everywhere. */
  function Includes(hay: string, needle: string): (r: bool)
    ensures r <==> exists i :: OccursAt(hay, needle, i)
    decreases |hay|
  {
    if needle <= hay then
      assert OccursAt(hay, needle, 0);
      true
    else if hay == [] then
      false
    else
      var rest := Includes(hay[1..], needle);
      assert forall i :: OccursAt(hay[1..], needle, i) <==> OccursAt(hay, needle, i + 1) by {
        forall i ensures OccursAt(hay[1..], needle, i) <==> OccursAt(hay, needle, i + 1) {
          if 0 <= i && i + |needle| <= |hay[1..]| {
            assert hay[1..][i..i + |needle|] == hay[i + 1..i + 1 + |needle|];
          }
        }
      }
      assert !OccursAt(hay, needle, 0);
      assert (exists i :: OccursAt(hay, needle, i)) ==> exists i :: OccursAt(hay[1..], needle, i) by {
        if exists i :: OccursAt(hay, needle, i) {
          var i :| OccursAt(hay, needle, i);
          assert OccursAt(hay[1..], needle, i - 1);
        }
      }
      rest
  }

  /** The empty search string is contained in every string. */
  lemma IncludesEmpty(hay: string)
    ensures Includes(hay, "")
  {
    assert OccursAt(hay, "", 0);
  }

  /** A string that lacks one of the needle's characters does not contain the needle. */
  lemma NotIncludesMissingChar(hay: string, needle: string, c: char)
    requires c in needle && c !in hay
    ensures !Includes(hay, needle)
  {
  }

  // ---------------------------------------------------------------------------
  // The relational comparison `a < b` on strings: lexicographic by character
  // code, a proper prefix comes first.

  predicate Less(a: string, b: string)
    ensures Less(a, b) ==> a != b
    decreases |a|
  {
    if a == [] then b != []
    else if b == [] then false
    else if a[0] != b[0] then a[0] < b[0]
    else Less(a[1..], b[1..])
  }

  lemma {:induction false} LessIrreflexive(a: string)
    ensures !Less(a, a)
  {
    if a != [] {
      LessIrreflexive(a[1..]);
    }
  }

  lemma {:induction false} LessTransitive(a: string, b: string, c: string)
    requires Less(a, b) && Less(b, c)
    ensures Less(a, c)
    decreases |a|
  {
    if a != [] && b != [] && c != [] && a[0] == b[0] && b[0] == c[0] {
      LessTransitive(a[1..], b[1..], c[1..]);
    }
  }

  /** Exactly one of `a < b`, `a == b`, `b < a` holds. */
  lemma {:induction false} LessTrichotomy(a: string, b: string)
    ensures Less(a, b) || a == b || Less(b, a)
    ensures !(Less(a, b) && Less(b, a))
    ensures !(Less(a, b) && a == b)
    decreases |a|
  {
    if a != [] && b != [] && a[0] == b[0] {
      LessTrichotomy(a[1..], b[1..]);
      if a[1..] == b[1..] {
        assert a == [a[0]] + a[1..] && b == [b[0]] + b[1..];
      }
    }
    if a == b {
      LessIrreflexive(a);
    }
  }

  /** Behind heads of equal length, `<` is decided by the heads unless they
      are equal, and then by the tails. */
  lemma {:induction false} LessAppend(a: string, b: string, x: string, y: string)
    requires |a| == |b|
    ensures Less(a + x, b + y) == if a == b then Less(x, y) else Less(a, b)
    decreases |a|
  {
    if a == [] {
      assert a + x == x && b + y == y;
    } else {
      assert (a + x)[0] == a[0] && (b + y)[0] == b[0];
      assert (a + x)[1..] == a[1..] + x && (b + y)[1..] == b[1..] + y;
      LessAppend(a[1..], b[1..], x, y);
      assert a == [a[0]] + a[1..] && b == [b[0]] + b[1..];
    }
  }

  /** A common first character leaves the comparison to the rest. */
  lemma LessSameHead(c: char, x: string, y: string)
    ensures Less([c] + x, [c] + y) == Less(x, y)
  {
    assert ([c] + x)[1..] == x && ([c] + y)[1..] == y;
  }

  // ---------------------------------------------------------------------------
  // split / join on one separator character

  /** String.prototype.split(sep) for a one-character separator: always at
      least one piece; neighbouring separators give empty pieces. */
  function Split(s: string, sep: char): (r: seq<string>)
    ensures |r| >= 1
    decreases |s|
  {
    if s == [] then [""]
    else
      var rest := Split(s[1..], sep);
      if s[0] == sep then [""] + rest
      else [[s[0]] + rest[0]] + rest[1..]
  }

  /** Array.prototype.join(sep) for string pieces and a one-character
      separator: the inverse that states Split's round trip. */
  function Join(pieces: seq<string>, sep: char): (r: string)
    ensures pieces != [] ==> |r| >= |pieces[0]| + |pieces| - 1
    decreases |pieces|
  {
    if pieces == [] then ""
    else if |pieces| == 1 then pieces[0]
    else pieces[0] + [sep] + Join(pieces[1..], sep)
  }

  /** No piece contains the separator. */
  lemma {:induction false} SplitPiecesHaveNoSeparator(s: string, sep: char)
    ensures forall p :: p in Split(s, sep) ==> sep !in p
    decreases |s|
  {
    if s != [] {
      SplitPiecesHaveNoSeparator(s[1..], sep);
    }
  }

  /** A string without the separator is one piece. */
  lemma {:induction false} SplitNoSeparator(s: string, sep: char)
    requires sep !in s
    ensures Split(s, sep) == [s]
    decreases |s|
  {
    if s != [] {
      SplitNoSeparator(s[1..], sep);
      assert s == [s[0]] + s[1..];
    }
  }

  /** A separator after a piece without one starts the next piece. */
  lemma {:induction false} SplitAtSeparator(a: string, b: string, sep: char)
    requires sep !in a
    ensures Split(a + [sep] + b, sep) == [a] + Split(b, sep)
    decreases |a|
  {
    var s := a + [sep] + b;
    if a == [] {
      assert s == [sep] + b;
      assert s[1..] == b;
    } else {
      assert s[0] == a[0];
      assert s[1..] == a[1..] + [sep] + b;
      SplitAtSeparator(a[1..], b, sep);
      assert [a[0]] + a[1..] == a;
    }
  }

  /** Joining the pieces back with the separator gives the original string. */
  lemma {:induction false} JoinSplit(s: string, sep: char)
    ensures Join(Split(s, sep), sep) == s
    decreases |s|
  {
    if s != [] {
      var rest := Split(s[1..], sep);
      JoinSplit(s[1..], sep);
      if s[0] == sep {
        assert Split(s, sep)[1..] == rest;
        assert s == [sep] + s[1..];
      } else {
        assert Split(s, sep) == [[s[0]] + rest[0]] + rest[1..];
        JoinConsHead(s[0], rest, sep);
        assert s == [s[0]] + s[1..];
      }
    }
  }

  /** A character put before the first piece comes first in the joined string. */
  lemma JoinConsHead(c: char, pieces: seq<string>, sep: char)
    requires pieces != []
    ensures Join([[c] + pieces[0]] + pieces[1..], sep) == [c] + Join(pieces, sep)
  {
    var q := [[c] + pieces[0]] + pieces[1..];
    assert q[0] == [c] + pieces[0] && q[1..] == pieces[1..];
  }

  /** Splitting separator-free pieces joined with the separator gives the
      pieces back: they are the only such decomposition of the string. */
  lemma {:induction false} SplitJoin(pieces: seq<string>, sep: char)
    requires pieces != []
    requires forall k :: 0 <= k < |pieces| ==> sep !in pieces[k]
    ensures Split(Join(pieces, sep), sep) == pieces
    decreases |pieces|
  {
    if |pieces| == 1 {
      SplitNoSeparator(pieces[0], sep);
    } else {
      var tail := pieces[1..];
      assert forall k :: 0 <= k < |tail| ==> sep !in tail[k] by {
        forall k | 0 <= k < |tail| ensures sep !in tail[k] {
          assert tail[k] == pieces[k + 1];
        }
      }
      SplitJoin(tail, sep);
      assert sep !in pieces[0];
      SplitAtSeparator(pieces[0], Join(tail, sep), sep);
      assert [pieces[0]] + tail == pieces;
    }
  }

  // ---------------------------------------------------------------------------
  // Numbers as decimal strings

  predicate IsDigit(c: char) { '0' <= c <= '9' }

  function Digit(n: int): (c: char)
    requires 0 <= n < 10
    ensures IsDigit(c)
  {
    (48 + n) as char
  }

  function DigitValue(c: char): (n: int)
    requires IsDigit(c)
    ensures 0 <= n < 10 && Digit(n) == c
  {
    c as int - 48
  }

  /** String(n) for a natural number: the shortest decimal numeral of n. */
  function NatToString(n: nat): (r: string)
    ensures |r| >= 1 && IsDigit(r[0])
    ensures |r| > 1 ==> r[0] != '0'
    ensures r[0] == '0' <==> n == 0
    ensures n < 10 <==> |r| == 1
    ensures 10 <= n < 100 <==> |r| == 2
  {
    if n < 10 then [Digit(n)] else NatToString(n / 10) + [Digit(n % 10)]
  }

  /** The numeral is made of digits only. */
  lemma {:induction false} NatToStringDigits(n: nat)
    ensures forall i :: 0 <= i < |NatToString(n)| ==> IsDigit(NatToString(n)[i])
  {
    if n >= 10 {
      NatToStringDigits(n / 10);
      var s := NatToString(n / 10);
      assert NatToString(n) == s + [Digit(n % 10)];
      assert forall i :: 0 <= i < |s| ==> IsDigit(s[i]);
    }
  }

  /** String(i) for an integer: a minus sign before the numeral of |i|. */
  function IntToString(i: int): (r: string)
    ensures |r| >= 1
    ensures i < 0 <==> r[0] == '-'
    ensures r[0] == '-' ==> |r| >= 2 && r[1] != '0'
    ensures |r| > 1 && r[0] != '-' ==> r[0] != '0'
  {
    if i < 0 then "-" + NatToString(-i) else NatToString(i)
  }

  /** Reads a string of digits as a decimal number. */
  function ParseNat(s: string): (n: nat)
    requires forall i :: 0 <= i < |s| ==> IsDigit(s[i])
    decreases |s|
  {
    if s == [] then 0 else ParseNat(s[..|s| - 1]) * 10 + DigitValue(s[|s| - 1])
  }

  /** Reads an optional minus sign followed by digits as an integer. */
  function ParseInt(s: string): int
    requires s != [] && s[0] == '-' ==> forall i :: 1 <= i < |s| ==> IsDigit(s[i])
    requires (s == [] || s[0] != '-') ==> forall i :: 0 <= i < |s| ==> IsDigit(s[i])
  {
    if s != [] && s[0] == '-' then -(ParseNat(s[1..]) as int) else ParseNat(s)
  }

  /** The numeral is all digits and reads back as the number. */
  lemma {:induction false} ParseNatToString(n: nat)
    ensures forall i :: 0 <= i < |NatToString(n)| ==> IsDigit(NatToString(n)[i])
    ensures ParseNat(NatToString(n)) == n
  {
    NatToStringDigits(n);
    if n >= 10 {
      ParseNatToString(n / 10);
      var s := NatToString(n);
      assert s[..|s| - 1] == NatToString(n / 10);
    }
  }

  /** The string is a sign or a digit, then digits, and reads back as the integer. */
  lemma ParseIntToString(i: int)
    ensures IntToString(i)[0] == '-' || IsDigit(IntToString(i)[0])
    ensures forall k :: 1 <= k < |IntToString(i)| ==> IsDigit(IntToString(i)[k])
    ensures ParseInt(IntToString(i)) == i
  {
    if i < 0 {
      ParseNatToString(-i);
      assert IntToString(i)[1..] == NatToString(-i);
    } else {
      ParseNatToString(i);
    }
  }

  /** Distinct integers have distinct decimal strings. */
  lemma IntToStringInjective(a: int, b: int)
    requires IntToString(a) == IntToString(b)
    ensures a == b
  {
    ParseIntToString(a);
    ParseIntToString(b);
  }

  /** String.prototype.padStart(width, fill) with a one-character fill. */
  function PadStart(s: string, width: nat, fill: char): (r: string)
    ensures |r| == if |s| >= width then |s| else width
    ensures r[|r| - |s|..] == s
    ensures forall i :: 0 <= i < |r| - |s| ==> r[i] == fill
    decreases width - |s|
  {
    if |s| >= width then s else PadStart([fill] + s, width, fill)
  }

  /** String(n).padStart(2, '0') for 0 <= n < 100. */
  function TwoDigits(n: nat): (r: string)
    requires n < 100
    ensures |r| == 2 && IsDigit(r[0]) && IsDigit(r[1])
  {
    [Digit(n / 10), Digit(n % 10)]
  }

  lemma TensAndUnits(n: nat)
    ensures n == 10 * (n / 10) + n % 10
  {
  }

  /** Two digits read back as the number they spell. */
  lemma ParseTwoDigits(a: int, b: int)
    requires 0 <= a < 10 && 0 <= b < 10
    ensures ParseNat([Digit(a), Digit(b)]) == 10 * a + b
  {
    var s := [Digit(a), Digit(b)];
    assert DigitValue(Digit(a)) == a && DigitValue(Digit(b)) == b;
    assert s[..1] == [Digit(a)] && s[..1][..0] == [];
    assert ParseNat(s[..1]) == a;
    assert ParseNat(s) == ParseNat(s[..1]) * 10 + DigitValue(s[1]);
  }

  /** The two-digit field reads back as the number it was made from. */
  lemma TwoDigitsRoundTrip(n: nat)
    requires n < 100
    ensures ParseNat(TwoDigits(n)) == n
  {
    ParseTwoDigits(n / 10, n % 10);
    TensAndUnits(n);
  }

  /** The field is the numeral padded on the left with '0' to two characters. */
  lemma TwoDigitsIsPadded(n: nat)
    requires n < 100
    ensures TwoDigits(n) == PadStart(NatToString(n), 2, '0')
  {
    if n < 10 {
      assert NatToString(n) == [Digit(n)];
      PadOnce([Digit(n)], 2, '0');
    } else {
      TwoDigitNumeral(n);
      PadNone(TwoDigits(n), 2, '0');
    }
  }

  /** A string already as wide as the width is left as it is. */
  lemma PadNone(s: string, width: nat, fill: char)
    requires |s| >= width
    ensures PadStart(s, width, fill) == s
  {
  }

  /** A string one short of the width gets a single fill character. */
  lemma PadOnce(s: string, width: nat, fill: char)
    requires |s| + 1 == width
    ensures PadStart(s, width, fill) == [fill] + s
  {
    assert PadStart([fill] + s, width, fill) == [fill] + s;
  }

  lemma TwoDigitsInjective(a: nat, b: nat)
    requires a < 100 && b < 100 && TwoDigits(a) == TwoDigits(b)
    ensures a == b
  {
    TwoDigitsRoundTrip(a);
    TwoDigitsRoundTrip(b);
  }

  /** One-character strings compare as their characters. */
  lemma LessSingle(p: char, q: char)
    ensures Less([p], [q]) <==> p < q
  {
    assert [p][1..] == [] && [q][1..] == [];
  }

  lemma DigitOrder(i: int, j: int)
    requires 0 <= i < 10 && 0 <= j < 10
    ensures Digit(i) < Digit(j) <==> i < j
    ensures Digit(i) == Digit(j) <==> i == j
  {
  }

  /** Two-character strings compare on the first characters, then the second. */
  lemma LessPair(p: char, q: char, p2: char, q2: char)
    ensures Less([p, q], [p2, q2]) <==> p < p2 || (p == p2 && q < q2)
  {
    assert [p, q] == [p] + [q] && [p2, q2] == [p2] + [q2];
    LessAppend([p], [p2], [q], [q2]);
    LessSingle(p, p2);
    LessSingle(q, q2);
  }

  /** Two-digit numerals compare as strings the way their values compare. */
  lemma LessNumerals(t: int, u: int, t2: int, u2: int)
    requires 0 <= t < 10 && 0 <= u < 10 && 0 <= t2 < 10 && 0 <= u2 < 10
    ensures Less([Digit(t), Digit(u)], [Digit(t2), Digit(u2)]) <==> 10 * t + u < 10 * t2 + u2
  {
    LessPair(Digit(t), Digit(u), Digit(t2), Digit(u2));
    DigitOrder(t, t2);
    DigitOrder(u, u2);
  }

  /** Two-digit fields compare as strings the way their numbers compare. */
  lemma LessTwoDigits(a: nat, b: nat)
    requires a < 100 && b < 100
    ensures Less(TwoDigits(a), TwoDigits(b)) <==> a < b
  {
    LessNumerals(a / 10, a % 10, b / 10, b % 10);
  }

  lemma YearDigits(y: int)
    requires 1000 <= y <= 9999
    ensures y / 10 / 10 == y / 100 && 10 <= y / 100 < 100
    ensures y % 100 / 10 == y / 10 % 10 && y % 100 % 10 == y % 10
  {
  }

  /** A numeral of two or more digits is the numeral of its tens followed by its last digit. */
  lemma NumeralStep(n: nat)
    requires n >= 10
    ensures NatToString(n) == NatToString(n / 10) + [Digit(n % 10)]
  {
  }

  /** Between 10 and 99, the numeral is the two-digit field. */
  lemma TwoDigitNumeral(n: nat)
    requires 10 <= n < 100
    ensures NatToString(n) == TwoDigits(n)
  {
    assert NatToString(n / 10) == [Digit(n / 10)];
  }

  lemma ComposeFields(whole: string, head: string, century: string, rest: string, p: char, q: char)
    requires whole == head + [q] && head == century + [p] && rest == [p, q]
    ensures whole == century + rest
  {
    assert (century + [p]) + [q] == century + [p, q];
  }

  /** A four-digit year is its century and its year-of-century, two digits each. */
  lemma FourDigitYear(y: int)
    requires 1000 <= y <= 9999
    ensures IntToString(y) == TwoDigits(y / 100) + TwoDigits(y % 100)
  {
    var c, r, t := y / 100, y % 100, y / 10;
    YearDigits(y);
    NumeralStep(y);
    NumeralStep(t);
    TwoDigitNumeral(c);
    ComposeFields(NatToString(y), NatToString(t), TwoDigits(c), TwoDigits(r), Digit(t % 10), Digit(y % 10));
  }

  /** Century and year-of-century fields compare as strings the way the years
      they spell compare. */
  lemma LessCenturyFields(c1: nat, r1: nat, c2: nat, r2: nat)
    requires c1 < 100 && r1 < 100 && c2 < 100 && r2 < 100
    ensures Less(TwoDigits(c1) + TwoDigits(r1), TwoDigits(c2) + TwoDigits(r2)) <==> 100 * c1 + r1 < 100 * c2 + r2
  {
    LessAppend(TwoDigits(c1), TwoDigits(c2), TwoDigits(r1), TwoDigits(r2));
    LessTwoDigits(c1, c2);
    LessTwoDigits(r1, r2);
    if TwoDigits(c1) == TwoDigits(c2) {
      TwoDigitsInjective(c1, c2);
    }
  }

  /** Four-digit years compare as strings the way the years compare. */
  lemma LessFourDigitYears(y1: int, y2: int)
    requires 1000 <= y1 <= 9999 && 1000 <= y2 <= 9999
    ensures Less(IntToString(y1), IntToString(y2)) <==> y1 < y2
  {
    FourDigitYear(y1);
    FourDigitYear(y2);
    LessCenturyFields(y1 / 100, y1 % 100, y2 / 100, y2 % 100);
  }
}
