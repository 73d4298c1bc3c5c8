/**
  String helpers that several parts of the system rely on: decimal rendering
  of integers (Python's f-strings and JavaScript's `+` on numbers), the
  `split` of JavaScript strings, JavaScript's `trim`, `startsWith`, and
  lower-casing.
 */
module Text {
  import opened Wrappers

  predicate StartsWith(s: string, prefix: string) {
    |prefix| <= |s| && s[..|prefix|] == prefix
  }

  // ---------------------------------------------------------------------
  // Decimal numbers
  // ---------------------------------------------------------------------

  predicate IsDigit(c: char) {
    '0' <= c <= '9'
  }

  predicate AllDigits(s: string) {
    forall i :: 0 <= i < |s| ==> IsDigit(s[i])
  }

  function DigitChar(d: nat): (c: char)
    requires d < 10
    ensures IsDigit(c) && (c as int) - ('0' as int) == d
  {
    (('0' as int) + d) as char
  }

  /** The decimal rendering of a natural number, without leading zeros. */
  function NatToString(n: nat): (s: string)
    ensures |s| >= 1 && AllDigits(s)
    ensures s[0] == '0' ==> n == 0
    decreases n
  {
    if n < 10 then [DigitChar(n)] else NatToString(n / 10) + [DigitChar(n % 10)]
  }

  /** The decimal rendering of an integer, as Python's `str` and JavaScript's
      `String` produce it: a minus sign followed by the digits of the magnitude. */
  function IntToString(i: int): (s: string)
  {
    if i < 0 then "-" + NatToString(-i) else NatToString(i)
  }

  /** The value of a string of decimal digits. */
  function ParseNat(s: string): (n: nat)
    requires AllDigits(s)
  {
    if s == [] then 0
    else ParseNat(s[..|s| - 1]) * 10 + ((s[|s| - 1] as int) - ('0' as int))
  }

  /** Parsing undoes rendering. */
  lemma {:induction false} ParseNatToString(n: nat)
    ensures ParseNat(NatToString(n)) == n
    decreases n
  {
    var s := NatToString(n);
    if n >= 10 {
      ParseNatToString(n / 10);
      assert s[..|s| - 1] == NatToString(n / 10);
    }
  }

  /** Rendering is injective. */
  lemma NatToStringInjective(m: nat, n: nat)
    requires NatToString(m) == NatToString(n)
    ensures m == n
  {
    ParseNatToString(m);
    ParseNatToString(n);
  }

  // ---------------------------------------------------------------------
  // Recovering a numeric suffix, as in "<name>-<id>"
  // ---------------------------------------------------------------------

  /** The position of the last occurrence of `c` in `s`, if any. */
  function LastIndexOf(s: string, c: char): (r: Option<nat>)
    ensures r.Some? ==> r.value < |s| && s[r.value] == c
    ensures r.Some? ==> forall j :: r.value < j < |s| ==> s[j] != c
    ensures r.None? ==> forall j :: 0 <= j < |s| ==> s[j] != c
  {
    if s == [] then None
    else if s[|s| - 1] == c then Some(|s| - 1)
    else LastIndexOf(s[..|s| - 1], c)
  }

  /** The number written after the last '-' of `s`, if what follows that
      dash is a non-empty run of digits. */
  function IdSuffix(s: string): Option<nat>
  {
    match LastIndexOf(s, '-')
    case None => None
    case Some(k) =>
      if k + 1 < |s| && AllDigits(s[k + 1..]) then Some(ParseNat(s[k + 1..])) else None
  }

  /** Whatever the base text, the id appended after a dash can be read back. */
  lemma IdSuffixOfDashed(base: string, id: nat)
    ensures IdSuffix(base + "-" + NatToString(id)) == Some(id)
  {
    var digits := NatToString(id);
    var s := base + "-" + digits;
    var k := |base|;
    assert s[k] == '-';
    forall j | k < j < |s| ensures s[j] != '-' {
      assert s[j] == digits[j - k - 1];
    }
    var r := LastIndexOf(s, '-');
    assert r == Some(k);
    assert s[k + 1..] == digits;
    ParseNatToString(id);
  }

  /** Names derived as "<base>-<id>" for two different ids never coincide,
      whatever the two bases are. */
  lemma DashedNamesDistinct(base1: string, id1: nat, base2: string, id2: nat)
    requires id1 != id2
    ensures base1 + "-" + NatToString(id1) != base2 + "-" + NatToString(id2)
  {
    IdSuffixOfDashed(base1, id1);
    IdSuffixOfDashed(base2, id2);
  }

  // ---------------------------------------------------------------------
  // JavaScript's String.prototype.split with a non-empty separator
  // ---------------------------------------------------------------------

  predicate OccursAt(s: string, sep: string, j: int) {
    0 <= j && j + |sep| <= |s| && s[j..j + |sep|] == sep
  }

  ghost predicate Contains(s: string, sep: string) {
    exists j :: OccursAt(s, sep, j)
  }

  /** The first position at or after `from` where `sep` occurs in `s`. */
  function IndexOf(s: string, sep: string, from: nat): (r: Option<nat>)
    requires |sep| > 0 && from <= |s|
    ensures r.Some? ==> from <= r.value && OccursAt(s, sep, r.value)
    ensures r.Some? ==> forall j :: from <= j < r.value ==> !OccursAt(s, sep, j)
    ensures r.None? ==> forall j :: from <= j ==> !OccursAt(s, sep, j)
    decreases |s| - from
  {
    if from + |sep| > |s| then None
    else if s[from..from + |sep|] == sep then Some(from)
    else IndexOf(s, sep, from + 1)
  }

  /** `s.split(sep)`: the pieces between the leftmost non-overlapping
      occurrences of `sep`; a string without `sep` gives the one piece `s`. */
  function Split(s: string, sep: string): (parts: seq<string>)
    requires |sep| > 0
    ensures |parts| >= 1
    decreases |s|
  {
    match IndexOf(s, sep, 0)
    case None => [s]
    case Some(i) => [s[..i]] + Split(s[i + |sep|..], sep)
  }

  /** `parts.join(sep)`. */
  function Join(parts: seq<string>, sep: string): string
  {
    if |parts| == 0 then ""
    else if |parts| == 1 then parts[0]
    else parts[0] + sep + Join(parts[1..], sep)
  }

  /** Joining the pieces with the separator gives back the original string. */
  lemma {:induction false} JoinSplit(s: string, sep: string)
    requires |sep| > 0
    ensures Join(Split(s, sep), sep) == s
    decreases |s|
  {
    var r := IndexOf(s, sep, 0);
    if r.None? {
      assert Split(s, sep) == [s];
    } else {
      var i := r.value;
      var rest := s[i + |sep|..];
      var tail := Split(rest, sep);
      JoinSplit(rest, sep);
      assert Split(s, sep) == [s[..i]] + tail;
      JoinCons(s[..i], tail, sep);
      CutAround(s, sep, i);
    }
  }

  /** Joining a head in front of at least one more piece puts the separator
      between them. */
  lemma JoinCons(head: string, tail: seq<string>, sep: string)
    requires |tail| >= 1
    ensures Join([head] + tail, sep) == head + sep + Join(tail, sep)
  {
    assert ([head] + tail)[1..] == tail;
  }

  /** A string is the text before an occurrence of `sep`, `sep`, and the
      text after it. */
  lemma CutAround(s: string, sep: string, i: int)
    requires OccursAt(s, sep, i)
    ensures s == s[..i] + sep + s[i + |sep|..]
  {
    assert s == s[..i] + s[i..i + |sep|] + s[i + |sep|..];
  }

  /** No piece of a split contains the separator. */
  lemma {:induction false} SplitPiecesAvoidSeparator(s: string, sep: string)
    requires |sep| > 0
    ensures forall k :: 0 <= k < |Split(s, sep)| ==> !Contains(Split(s, sep)[k], sep)
    decreases |s|
  {
    match IndexOf(s, sep, 0)
    case None =>
      assert Split(s, sep) == [s];
      PrefixAvoids(s, sep, |s|);
      assert s[..|s|] == s;
    case Some(i) =>
      var rest := s[i + |sep|..];
      SplitPiecesAvoidSeparator(rest, sep);
      PrefixAvoids(s, sep, i);
      assert Split(s, sep) == [s[..i]] + Split(rest, sep);
      ConsAvoids(s[..i], Split(rest, sep), sep);
  }

  /** A prefix of `s` ending before every occurrence of `sep` in `s`
      contains no `sep`. */
  lemma PrefixAvoids(s: string, sep: string, i: int)
    requires |sep| > 0 && 0 <= i <= |s|
    requires forall j :: 0 <= j < i ==> !OccursAt(s, sep, j)
    ensures !Contains(s[..i], sep)
  {
    var head := s[..i];
    forall j | OccursAt(head, sep, j) ensures false {
      assert s[j..j + |sep|] == head[j..j + |sep|];
      assert OccursAt(s, sep, j);
    }
  }

  /** Pieces free of `sep` stay so with one more such piece in front. */
  lemma ConsAvoids(head: string, tail: seq<string>, sep: string)
    requires !Contains(head, sep)
    requires forall k :: 0 <= k < |tail| ==> !Contains(tail[k], sep)
    ensures forall k :: 0 <= k < |[head] + tail| ==> !Contains(([head] + tail)[k], sep)
  {
    forall k | 0 <= k < |[head] + tail| ensures !Contains(([head] + tail)[k], sep) {
      if k > 0 {
        assert ([head] + tail)[k] == tail[k - 1];
      }
    }
  }

  /** Splitting at a single character that the head does not contain
      peels off the head as the first piece. */
  lemma SplitAtFirstChar(head: string, c: char, rest: string)
    requires forall j :: 0 <= j < |head| ==> head[j] != c
    ensures Split(head + [c] + rest, [c]) == [head] + Split(rest, [c])
  {
    var s := head + [c] + rest;
    assert OccursAt(s, [c], |head|);
    forall j | 0 <= j < |head| ensures !OccursAt(s, [c], j) {
      assert s[j] == head[j];
    }
    var r := IndexOf(s, [c], 0);
    assert r == Some(|head|);
    assert s[..|head|] == head;
    assert s[|head| + 1..] == rest;
  }

  /** The first piece of a split at a single character is the longest
      prefix free of that character. */
  lemma SplitFirstPiece(s: string, c: char)
    ensures var p := Split(s, [c])[0];
      StartsWith(s, p) && (forall j :: 0 <= j < |p| ==> p[j] != c) && (|p| == |s| || s[|p|] == c)
  {
    var p := Split(s, [c])[0];
    match IndexOf(s, [c], 0)
    case None =>
      forall j | 0 <= j < |s| ensures s[j] != c {
        assert !OccursAt(s, [c], j);
        assert s[j..j + 1] == [s[j]];
      }
    case Some(i) =>
      assert p == s[..i];
      forall j | 0 <= j < |p| ensures p[j] != c {
        assert !OccursAt(s, [c], j);
        assert s[j..j + 1] == [p[j]];
      }
  }

  /** The number of occurrences of `c` in `s`. */
  function CountChar(s: string, c: char): nat {
    if s == [] then 0 else (if s[0] == c then 1 else 0) + CountChar(s[1..], c)
  }

  lemma {:induction false} CountCharAppend(a: string, b: string, c: char)
    ensures CountChar(a + b, c) == CountChar(a, c) + CountChar(b, c)
  {
    if a == [] {
      assert a + b == b;
    } else {
      assert (a + b)[1..] == a[1..] + b;
      CountCharAppend(a[1..], b, c);
    }
  }

  lemma {:induction false} CountCharAbsent(s: string, c: char)
    requires forall j :: 0 <= j < |s| ==> s[j] != c
    ensures CountChar(s, c) == 0
  {
    if s != [] {
      CountCharAbsent(s[1..], c);
    }
  }

  /** Splitting at a character gives one piece more than the character's
      number of occurrences. */
  lemma {:induction false} SplitCharCount(s: string, c: char)
    ensures |Split(s, [c])| == CountChar(s, c) + 1
    decreases |s|
  {
    match IndexOf(s, [c], 0)
    case None =>
      forall j | 0 <= j < |s| ensures s[j] != c {
        assert !OccursAt(s, [c], j);
        assert s[j..j + 1] == [s[j]];
      }
      CountCharAbsent(s, c);
    case Some(i) =>
      var head := s[..i];
      var rest := s[i + 1..];
      forall j | 0 <= j < |head| ensures head[j] != c {
        assert !OccursAt(s, [c], j);
        assert s[j..j + 1] == [head[j]];
      }
      CountCharAbsent(head, c);
      assert s[i..i + 1] == [c];
      assert s == head + ([c] + rest);
      CountCharAppend(head, [c] + rest, c);
      assert ([c] + rest)[1..] == rest;
      SplitCharCount(rest, c);
      assert Split(s, [c]) == [head] + Split(rest, [c]);
  }

  // ---------------------------------------------------------------------
  // JavaScript's String.prototype.trim
  // ---------------------------------------------------------------------

  /** ECMAScript WhiteSpace and LineTerminator code points: tab, line tab,
      form feed, the byte order mark, every Space_Separator, line feed,
      carriage return, and the line and paragraph separators. */
  predicate IsJsWhitespace(c: char) {
    c == '\t' || c == '\U{000B}' || c == '\U{000C}' || c == ' ' || c == '\U{00A0}' ||
    c == '\U{FEFF}' || c == '\U{1680}' || ('\U{2000}' <= c <= '\U{200A}') ||
    c == '\U{202F}' || c == '\U{205F}' || c == '\U{3000}' ||
    c == '\n' || c == '\r' || c == '\U{2028}' || c == '\U{2029}'
  }

  function TrimStart(s: string): (r: string)
    ensures |r| <= |s| && r == s[|s| - |r|..]
    ensures forall j :: 0 <= j < |s| - |r| ==> IsJsWhitespace(s[j])
    ensures r == [] || !IsJsWhitespace(r[0])
  {
    if s != [] && IsJsWhitespace(s[0]) then TrimStart(s[1..]) else s
  }

  function TrimEnd(s: string): (r: string)
    ensures |r| <= |s| && r == s[..|r|]
    ensures forall j :: |r| <= j < |s| ==> IsJsWhitespace(s[j])
    ensures r == [] || !IsJsWhitespace(r[|r| - 1])
  {
    if s != [] && IsJsWhitespace(s[|s| - 1]) then TrimEnd(s[..|s| - 1]) else s
  }

  /** `s.trim()`. */
  function Trim(s: string): (r: string)
  {
    TrimEnd(TrimStart(s))
  }

  /** A slice `r` of a suffix `t` of `s`, cut off by whitespace on both
      sides, is `s[a..b]` with whitespace before `a` and from `b` on. */
  lemma WhitespaceBounded(s: string, t: string, r: string)
    requires |t| <= |s| && t == s[|s| - |t|..]
    requires forall j :: 0 <= j < |s| - |t| ==> IsJsWhitespace(s[j])
    requires |r| <= |t| && r == t[..|r|]
    requires forall j :: |r| <= j < |t| ==> IsJsWhitespace(t[j])
    ensures exists a, b :: (0 <= a <= b <= |s| && r == s[a..b] &&
      (forall j :: 0 <= j < a ==> IsJsWhitespace(s[j])) &&
      (forall j :: b <= j < |s| ==> IsJsWhitespace(s[j])))
  {
    var a := |s| - |t|;
    var b := a + |r|;
    assert r == s[a..b];
    forall j | b <= j < |s| ensures IsJsWhitespace(s[j]) {
      assert s[j] == t[j - a];
    }
  }

  /** Trimming removes only surrounding whitespace and leaves neither end on whitespace. */
  lemma TrimShape(s: string)
    ensures var r := Trim(s);
      exists a, b :: (0 <= a <= b <= |s| && r == s[a..b] &&
        (forall j :: 0 <= j < a ==> IsJsWhitespace(s[j])) &&
        (forall j :: b <= j < |s| ==> IsJsWhitespace(s[j])))
    ensures var r := Trim(s); r == [] || (!IsJsWhitespace(r[0]) && !IsJsWhitespace(r[|r| - 1]))
  {
    var t := TrimStart(s);
    var r := TrimEnd(t);
    WhitespaceBounded(s, t, r);
    EndsOffWhitespace(t, r);
  }

  /** A non-empty prefix `r` of `t` starts where `t` does. */
  lemma EndsOffWhitespace(t: string, r: string)
    requires t == [] || !IsJsWhitespace(t[0])
    requires |r| <= |t| && r == t[..|r|]
    requires r == [] || !IsJsWhitespace(r[|r| - 1])
    ensures r == [] || (!IsJsWhitespace(r[0]) && !IsJsWhitespace(r[|r| - 1]))
  {
    if r != [] {
      assert r[0] == t[0];
    }
  }

  /** Trimming introduces no character that was not there. */
  lemma TrimKeepsAbsentChar(s: string, c: char)
    requires forall j :: 0 <= j < |s| ==> s[j] != c
    ensures c !in Trim(s)
  {
    var r := Trim(s);
    TrimShape(s);
    var a, b :| 0 <= a <= b <= |s| && r == s[a..b];
    SliceKeepsAbsentChar(s, a, b, c);
  }

  lemma SliceKeepsAbsentChar(s: string, a: nat, b: nat, c: char)
    requires a <= b <= |s|
    requires forall j :: 0 <= j < |s| ==> s[j] != c
    ensures c !in s[a..b]
  {
    forall j | 0 <= j < b - a ensures s[a..b][j] != c {
      assert s[a..b][j] == s[a + j];
    }
  }

  /** Trimming twice is trimming once. */
  lemma TrimIdempotent(s: string)
    ensures Trim(Trim(s)) == Trim(s)
  {
    TrimShape(s);
  }

  // ---------------------------------------------------------------------
  // Lower-casing
  // ---------------------------------------------------------------------

  function LowerChar(c: char): char {
    if 'A' <= c <= 'Z' then ((c as int) + 32) as char else c
  }

  /** Python's `str.lower`, on the ASCII letters. */
  function Lower(s: string): (r: string)
    ensures |r| == |s|
    ensures forall j :: 0 <= j < |s| ==> r[j] == LowerChar(s[j])
  {
    seq(|s|, j requires 0 <= j < |s| => LowerChar(s[j]))
  }
}
