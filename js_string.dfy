/** The JavaScript string built-ins that the dashboard's core logic relies on:
    indexOf, split, Array.prototype.join, trim, the relational comparison of
    strings and BigInt applied to a string. A string is a sequence of
    characters. */
module JsString {
  import opened Wrappers

  // ---------------------------------------------------------------------
  // Searching

  /** w occurs in s starting at index j. */
  predicate MatchAt(s: string, w: string, j: nat) {
    j + |w| <= |s| && s[j..j + |w|] == w
  }

  /** w occurs somewhere in s. */
  predicate Contains(s: string, w: string) {
    exists j: nat | j <= |s| :: MatchAt(s, w, j)
  }

  /** s.indexOf(w, from): the first index at or after from where w occurs. */
  function IndexOfFrom(s: string, w: string, from: nat): (r: Option<nat>)
    requires from <= |s|
    ensures r.Some? ==> from <= r.value && MatchAt(s, w, r.value)
    ensures forall j: nat :: from <= j && (r.None? || j < r.value) ==> !MatchAt(s, w, j)
    decreases |s| - from
  {
    if from + |w| > |s| then None
    else if MatchAt(s, w, from) then Some(from)
    else IndexOfFrom(s, w, from + 1)
  }

  /** w occurs at no index below k when no character of s below k is w's first. */
  lemma NoMatchWhereFirstCharAbsent(s: string, w: string, k: nat)
    requires w != [] && k <= |s|
    requires forall i :: 0 <= i < k ==> s[i] != w[0]
    ensures forall j: nat :: j < k ==> !MatchAt(s, w, j)
  {
    forall j: nat | j < k ensures !MatchAt(s, w, j) {
      if j + |w| <= |s| {
        assert s[j..j + |w|][0] == s[j];
      }
    }
  }

  /** A string in which the first character of w never occurs does not contain w. */
  lemma NoFirstCharNoMatch(s: string, w: string)
    requires w != [] && w[0] !in s
    ensures !Contains(s, w)
  {
    forall i | 0 <= i < |s| ensures s[i] != w[0] {
      assert s[i] in s;
    }
    NoMatchWhereFirstCharAbsent(s, w, |s|);
  }

  // ---------------------------------------------------------------------
  // split and join

  /** parts.join(sep): the join starts with the first part and holds every
      part and a separator between each two. */
  function Join(parts: seq<string>, sep: string): (r: string)
    ensures |parts| >= 1 ==> parts[0] <= r
    ensures |r| == SumOfLengths(parts) + (if |parts| == 0 then 0 else (|parts| - 1) * |sep|)
  {
    if |parts| == 0 then ""
    else if |parts| == 1 then parts[0]
    else parts[0] + sep + Join(parts[1..], sep)
  }

  function SumOfLengths(parts: seq<string>): nat
  {
    if parts == [] then 0 else |parts[0]| + SumOfLengths(parts[1..])
  }

  /** A character that is in neither the parts nor the separator is not in their join. */
  lemma {:induction false} JoinAvoids(parts: seq<string>, sep: string, c: char)
    requires c !in sep && forall k :: 0 <= k < |parts| ==> c !in parts[k]
    ensures c !in Join(parts, sep)
    decreases |parts|
  {
    if |parts| > 1 {
      JoinAvoids(parts[1..], sep, c);
    }
  }

  /** s.split(sep) for a non-empty separator: the pieces between successive,
      non-overlapping occurrences of sep found from left to right. */
  function SplitOn(s: string, sep: string): (r: seq<string>)
    requires sep != ""
    ensures |r| >= 1
    decreases |s|
  {
    match IndexOfFrom(s, sep, 0)
    case None =>
      [s]
    case Some(k) =>
      [s[..k]] + SplitOn(s[k + |sep|..], sep)
  }

  /** A join of a part and at least one more is that part, the separator
      and the join of the rest. */
  lemma JoinCons(a: string, parts: seq<string>, sep: string)
    requires |parts| >= 1
    ensures Join([a] + parts, sep) == a + sep + Join(parts, sep)
  {
    assert ([a] + parts)[1..] == parts;
  }

  /** No piece of a split contains the separator, and joining the pieces
      with the separator gives back the string. */
  lemma {:induction false} SplitOnPieces(s: string, sep: string)
    requires sep != ""
    ensures forall k :: 0 <= k < |SplitOn(s, sep)| ==> !Contains(SplitOn(s, sep)[k], sep)
    ensures Join(SplitOn(s, sep), sep) == s
    decreases |s|
  {
    var r := SplitOn(s, sep);
    match IndexOfFrom(s, sep, 0)
    case None =>
      assert r == [s];
    case Some(k) =>
      var rest := s[k + |sep|..];
      var tail := SplitOn(rest, sep);
      assert r == [s[..k]] + tail;
      SplitOnPieces(rest, sep);
      PrefixBeforeFirstMatch(s, sep, k);
      forall i | 0 <= i < |r| ensures !Contains(r[i], sep) {
        if i > 0 {
          assert r[i] == tail[i - 1];
        }
      }
      JoinCons(s[..k], tail, sep);
      assert s == s[..k] + sep + rest;
  }

  /** The text before the first match of sep does not contain sep. */
  lemma PrefixBeforeFirstMatch(s: string, sep: string, k: nat)
    requires sep != "" && k <= |s|
    requires forall j: nat :: j < k ==> !MatchAt(s, sep, j)
    ensures !Contains(s[..k], sep)
  {
    forall j: nat | j <= k ensures !MatchAt(s[..k], sep, j) {
      if j + |sep| <= k {
        assert s[..k][j..j + |sep|] == s[j..j + |sep|];
        assert !MatchAt(s, sep, j);
      }
    }
  }

  /** s.split(sep): with the empty separator JavaScript splits into single
      characters (and "" into no pieces at all). */
  function Split(s: string, sep: string): (r: seq<string>)
    ensures sep != "" ==> |r| >= 1
    ensures sep == "" ==> |r| == |s|
  {
    if sep == "" then Chars(s) else SplitOn(s, sep)
  }

  /** The characters of s, each as a one-character string. */
  function Chars(s: string): (r: seq<string>)
    ensures |r| == |s|
    ensures forall i :: 0 <= i < |s| ==> r[i] == [s[i]]
  {
    if s == [] then [] else Chars(s[..|s| - 1]) + [[s[|s| - 1]]]
  }

  /** Splitting at a first match: when sep occurs right after a and nowhere
      earlier, the first piece is a and the rest is the split of what follows. */
  lemma SplitAtFirstMatch(a: string, sep: string, b: string)
    requires sep != ""
    requires forall j: nat :: j < |a| ==> !MatchAt(a + sep + b, sep, j)
    ensures SplitOn(a + sep + b, sep) == [a] + SplitOn(b, sep)
  {
    var s := a + sep + b;
    assert s[|a|..|a| + |sep|] == sep;
    assert MatchAt(s, sep, |a|);
    var r := IndexOfFrom(s, sep, 0);
    assert r == Some(|a|);
    assert s[..|a|] == a;
    assert s[|a| + |sep|..] == b;
  }

  /** A string that does not contain the separator splits into itself. */
  lemma SplitWithoutMatch(s: string, sep: string)
    requires sep != "" && !Contains(s, sep)
    ensures SplitOn(s, sep) == [s]
  {
    var r := IndexOfFrom(s, sep, 0);
    assert r.Some? ==> MatchAt(s, sep, r.value);
  }

  /** A match in a suffix of s is a match in s, shifted by where the suffix starts. */
  lemma MatchAtSuffix(s: string, w: string, a: nat, j: nat)
    requires a <= |s|
    ensures MatchAt(s[a..], w, j) <==> MatchAt(s, w, a + j)
  {
    if j + |w| <= |s| - a {
      assert s[a..][j..j + |w|] == s[a + j..a + j + |w|];
    }
  }

  /** Searching a suffix from its start finds the first match in s at or
      after the suffix's start, shifted. */
  lemma IndexOfSuffix(s: string, w: string, a: nat)
    requires a <= |s|
    ensures IndexOfFrom(s[a..], w, 0) == match IndexOfFrom(s, w, a) case Some(e) => Some(e - a) case None => None
  {
    var r1, r2 := IndexOfFrom(s[a..], w, 0), IndexOfFrom(s, w, a);
    if r2.Some? {
      MatchAtSuffix(s, w, a, r2.value - a);
      if r1.Some? {
        MatchAtSuffix(s, w, a, r1.value);
      }
    } else if r1.Some? {
      MatchAtSuffix(s, w, a, r1.value);
    }
  }

  /** A split at a non-empty separator has a second piece exactly when the separator occurs. */
  lemma SplitOnHasSecondPiece(s: string, sep: string)
    requires sep != ""
    ensures |SplitOn(s, sep)| >= 2 <==> Contains(s, sep)
    ensures |SplitOn(s, sep)| >= 2 <==> IndexOfFrom(s, sep, 0).Some?
  {
    match IndexOfFrom(s, sep, 0)
    case None =>
      assert SplitOn(s, sep) == [s];
      forall j: nat | j <= |s| ensures !MatchAt(s, sep, j) {
      }
    case Some(k) =>
      assert MatchAt(s, sep, k);
  }

  /** The first piece of a split is the text before the first match of
      the separator, or all of s if there is none. */
  lemma SplitOnFirstPiece(s: string, sep: string)
    requires sep != ""
    ensures SplitOn(s, sep)[0] == match IndexOfFrom(s, sep, 0) case Some(m) => s[..m] case None => s
  {
  }

  /** The second piece of a split is the first piece of the split of what
      follows the first match. */
  lemma SecondPieceOfSplit(s: string, sep: string, k: nat)
    requires sep != "" && IndexOfFrom(s, sep, 0) == Some(k)
    ensures k + |sep| <= |s| && |SplitOn(s, sep)| >= 2
    ensures SplitOn(s, sep)[1] == SplitOn(s[k + |sep|..], sep)[0]
  {
    var a, b := s[..k], s[k + |sep|..];
    assert s == a + sep + b;
    SplitAtFirstMatch(a, sep, b);
  }

  /** The text of s from start up to the next match of sep at or after
      start, or to the end of s if there is none. */
  function TextUpToMatch(s: string, sep: string, start: nat): string
    requires start <= |s|
  {
    match IndexOfFrom(s, sep, start)
    case Some(e) => s[start..e]
    case None => s[start..]
  }

  /** Splitting a suffix of s, the first piece runs up to the first match
      at or after where the suffix starts, or to the end of s. */
  lemma FirstPieceOfSuffix(s: string, sep: string, start: nat)
    requires sep != "" && start <= |s|
    ensures SplitOn(s[start..], sep)[0] == TextUpToMatch(s, sep, start)
  {
    SplitOnFirstPiece(s[start..], sep);
    IndexOfSuffix(s, sep, start);
    if IndexOfFrom(s, sep, start).Some? {
      SliceOfSuffix(s, start, IndexOfFrom(s, sep, start).value - start);
    }
  }

  /** The second piece of a split is the text from just after the first
      match k of the separator up to the next match, or to the end of s if
      there is none. */
  lemma SplitOnSecondPiece(s: string, sep: string, k: nat)
    requires sep != "" && IndexOfFrom(s, sep, 0) == Some(k)
    ensures k + |sep| <= |s| && |SplitOn(s, sep)| >= 2
    ensures SplitOn(s, sep)[1] == TextAfterFirstMatch(s, sep)
  {
    var start := k + |sep|;
    SecondPieceOfSplit(s, sep, k);
    var piece := SplitOn(s[start..], sep)[0];
    assert SplitOn(s, sep)[1] == piece;
    FirstPieceOfSuffix(s, sep, start);
    assert piece == TextUpToMatch(s, sep, start);
    assert TextAfterFirstMatch(s, sep) == TextUpToMatch(s, sep, start);
  }

  /** With the empty separator, the second piece of s.split(sep) is the
      second character of s. */
  lemma SplitCharsSecondPiece(s: string)
    requires |Split(s, "")| >= 2
    ensures |s| >= 2 && Split(s, "")[1] == s[1..2]
  {
    assert Split(s, "")[1] == [s[1]];
  }

  /** The text after the first match of sep in s, up to the next match
      or the end of s; empty when sep does not occur. */
  function TextAfterFirstMatch(s: string, sep: string): string
  {
    match IndexOfFrom(s, sep, 0)
    case Some(k) => TextUpToMatch(s, sep, k + |sep|)
    case None => ""
  }

  /** With a non-empty separator, s.split(sep) has a second piece exactly
      when sep occurs in s, and that piece is the text between the first
      match of sep and the next. */
  lemma SplitSecondPiece(s: string, sep: string)
    requires sep != "" && |Split(s, sep)| >= 2
    ensures Contains(s, sep)
    ensures Split(s, sep)[1] == TextAfterFirstMatch(s, sep)
  {
    assert Split(s, sep) == SplitOn(s, sep);
    SplitOnHasSecondPiece(s, sep);
    SplitOnSecondPiece(s, sep, IndexOfFrom(s, sep, 0).value);
  }

  /** Splitting a + sep + b, where a lacks the first character of sep, splits off a. */
  lemma SplitOffFirst(a: string, sep: string, b: string)
    requires sep != "" && sep[0] !in a
    ensures SplitOn(a + sep + b, sep) == [a] + SplitOn(b, sep)
  {
    forall i | 0 <= i < |a| ensures (a + sep + b)[i] != sep[0] {
      assert (a + sep + b)[i] == a[i] && a[i] in a;
    }
    NoMatchWhereFirstCharAbsent(a + sep + b, sep, |a|);
    SplitAtFirstMatch(a, sep, b);
  }

  /** Joining and then splitting gives back the parts, provided the first
      character of the separator occurs in none of them. */
  lemma {:induction false} SplitJoin(parts: seq<string>, sep: string)
    requires sep != "" && |parts| >= 1
    requires forall k :: 0 <= k < |parts| ==> sep[0] !in parts[k]
    ensures SplitOn(Join(parts, sep), sep) == parts
    decreases |parts|
  {
    if |parts| == 1 {
      NoFirstCharNoMatch(parts[0], sep);
      SplitWithoutMatch(parts[0], sep);
    } else {
      var rest := parts[1..];
      assert parts == [parts[0]] + rest;
      JoinCons(parts[0], rest, sep);
      SplitOffFirst(parts[0], sep, Join(rest, sep));
      assert forall k :: 0 <= k < |rest| ==> rest[k] == parts[k + 1];
      SplitJoin(rest, sep);
    }
  }

  // ---------------------------------------------------------------------
  // trim

  /** The characters String.prototype.trim and BigInt(string) strip: the
      ECMAScript WhiteSpace and LineTerminator characters. */
  predicate IsWhiteSpace(c: char) {
    if c <= ' ' then c == ' ' || '\t' <= c <= '\r'
    else if c < '\U{00A0}' then false
    else IsWideWhiteSpace(c)
  }

  /** The white-space characters above U+00A0. */
  predicate IsWideWhiteSpace(c: char) {
    || c == '\U{00A0}' || c == '\U{1680}'
    || ('\U{2000}' <= c <= '\U{200A}')
    || c == '\U{2028}' || c == '\U{2029}' || c == '\U{202F}' || c == '\U{205F}'
    || c == '\U{3000}' || c == '\U{FEFF}'
  }

  /** Neither end of s is white space. */
  predicate IsTrimmed(s: string) {
    s == [] || (!IsWhiteSpace(s[0]) && !IsWhiteSpace(s[|s| - 1]))
  }

  /** s with its leading white space removed. */
  function TrimStart(s: string): (r: string)
    ensures |r| <= |s| && r == s[|s| - |r|..]
    ensures r == [] || !IsWhiteSpace(r[0])
  {
    if s != [] && IsWhiteSpace(s[0]) then TrimStart(s[1..]) else s
  }

  /** s with its trailing white space removed. */
  function TrimEnd(s: string): (r: string)
    ensures |r| <= |s| && r == s[..|r|]
    ensures r == [] || !IsWhiteSpace(r[|r| - 1])
  {
    if s != [] && IsWhiteSpace(s[|s| - 1]) then TrimEnd(s[..|s| - 1]) else s
  }

  /** s.trim(): s without white space at either end. */
  function Trim(s: string): (r: string)
    ensures IsTrimmed(r)
    ensures |r| <= |s|
  {
    var t := TrimStart(s);
    var r := TrimEnd(t);
    assert r != [] ==> r[0] == t[0];
    r
  }

  /** Every character of s is white space. */
  predicate AllWhiteSpace(s: string) {
    forall i :: 0 <= i < |s| ==> IsWhiteSpace(s[i])
  }

  /** Everything TrimStart removes is white space. */
  lemma {:induction false} TrimStartRemovesWhiteSpace(s: string)
    ensures AllWhiteSpace(s[..|s| - |TrimStart(s)|])
    decreases |s|
  {
    if s != [] && IsWhiteSpace(s[0]) {
      TrimStartRemovesWhiteSpace(s[1..]);
      var n := |s| - |TrimStart(s)|;
      assert s[..n] == [s[0]] + s[1..][..n - 1];
    }
  }

  /** Everything TrimEnd removes is white space. */
  lemma {:induction false} TrimEndRemovesWhiteSpace(s: string)
    ensures AllWhiteSpace(s[|TrimEnd(s)|..])
    decreases |s|
  {
    if s != [] && IsWhiteSpace(s[|s| - 1]) {
      TrimEndRemovesWhiteSpace(s[..|s| - 1]);
      var n := |TrimEnd(s)|;
      assert s[n..] == s[..|s| - 1][n..] + [s[|s| - 1]];
    }
  }

  /** trim keeps a contiguous part of s: the part that starts where
      TrimStart stopped. */
  lemma TrimIsSlice(s: string)
    ensures |Trim(s)| <= |TrimStart(s)|
    ensures Trim(s) == s[|s| - |TrimStart(s)|..|s| - |TrimStart(s)| + |Trim(s)|]
  {
    var t := TrimStart(s);
    var a := |s| - |t|;
    var r := TrimEnd(t);
    assert r == Trim(s);
    SliceOfSuffix(s, a, |r|);
  }

  lemma SliceOfSuffix(s: string, a: nat, n: nat)
    requires a + n <= |s|
    ensures s[a..][..n] == s[a..a + n]
  {
  }

  /** What trim removes after the part it keeps (TrimIsSlice) is white
      space; what it removes before that part is TrimStart's doing
      (TrimStartRemovesWhiteSpace). */
  lemma TrimRemovesTrailingWhiteSpace(s: string)
    ensures |Trim(s)| <= |TrimStart(s)|
    ensures AllWhiteSpace(s[|s| - |TrimStart(s)| + |Trim(s)|..])
  {
    var t := TrimStart(s);
    var a := |s| - |t|;
    var r := TrimEnd(t);
    assert r == Trim(s);
    TrimEndRemovesWhiteSpace(t);
    WhiteSpaceSuffixOfSuffix(s, a, |r|);
  }

  lemma WhiteSpaceSuffixOfSuffix(s: string, a: nat, n: nat)
    requires a + n <= |s| && AllWhiteSpace(s[a..][n..])
    ensures AllWhiteSpace(s[a + n..])
  {
    assert s[a..][n..] == s[a + n..];
  }

  /** Trimming changes nothing exactly when s is already trimmed. */
  lemma TrimFixesTrimmed(s: string)
    ensures Trim(s) == s <==> IsTrimmed(s)
  {
    if IsTrimmed(s) {
      assert TrimStart(s) == s;
    }
  }

  /** Leading white space in front of a trimmed string is all that trim removes. */
  lemma {:induction false} TrimAfterWhiteSpace(w: string, d: string)
    requires AllWhiteSpace(w)
    requires IsTrimmed(d)
    ensures Trim(w + d) == d
    decreases |w|
  {
    if w == [] {
      assert w + d == d;
      TrimFixesTrimmed(d);
    } else {
      assert (w + d)[1..] == w[1..] + d;
      assert TrimStart(w + d) == TrimStart(w[1..] + d);
      TrimAfterWhiteSpace(w[1..], d);
    }
  }

  // ---------------------------------------------------------------------
  // Relational comparison

  /** a < b for JavaScript strings: the first differing character decides,
      and a proper prefix is smaller than the longer string. No string is
      smaller than itself. */
  predicate LexLess(a: string, b: string)
    ensures LexLess(a, b) ==> a != b
  {
    if a == [] then b != []
    else if b == [] then false
    else if a[0] != b[0] then a[0] < b[0]
    else LexLess(a[1..], b[1..])
  }

  lemma {:induction false} LexLessTransitive(a: string, b: string, c: string)
    requires LexLess(a, b) && LexLess(b, c)
    ensures LexLess(a, c)
    decreases |a|
  {
    if a != [] && b != [] && c != [] && a[0] == b[0] && b[0] == c[0] {
      LexLessTransitive(a[1..], b[1..], c[1..]);
    }
  }

  /** Of two different strings, one is smaller than the other. */
  lemma {:induction false} LexLessTotal(a: string, b: string)
    requires a != b
    ensures LexLess(a, b) || LexLess(b, a)
    decreases |a|
  {
    if a != [] && b != [] && a[0] == b[0] {
      assert a == [a[0]] + a[1..] && b == [b[0]] + b[1..];
      LexLessTotal(a[1..], b[1..]);
    }
  }

  lemma {:induction false} LexLessAsymmetric(a: string, b: string)
    requires LexLess(a, b)
    ensures !LexLess(b, a)
  {
    if LexLess(b, a) {
      LexLessTransitive(a, b, a);
    }
  }

  // ---------------------------------------------------------------------
  // BigInt(string)

  /** The radixes a BigInt literal can be written in. */
  type Radix = r: nat | r == 2 || r == 8 || r == 10 || r == 16 witness 10

  /** n * radix, written with a literal factor in each case. */
  function Scale(n: nat, radix: Radix): nat
  {
    if radix == 2 then 2 * n else if radix == 8 then 8 * n else if radix == 10 then 10 * n else 16 * n
  }

  /** The value of c as a digit in the given radix. */
  function DigitValue(c: char, radix: Radix): (r: Option<nat>)
    ensures r.Some? ==> r.value < radix
  {
    var d: int :=
      if '0' <= c <= '9' then c as int - '0' as int
      else if 'a' <= c <= 'f' then c as int - 'a' as int + 10
      else if 'A' <= c <= 'F' then c as int - 'A' as int + 10
      else radix;
    if 0 <= d < radix then Some(d) else None
  }

  /** The number a string of digits denotes in the given radix; None when a
      character is not a digit of that radix. The empty string denotes 0. */
  function DigitsValue(ds: string, radix: Radix): Option<nat>
  {
    if ds == [] then Some(0)
    else match (DigitsValue(ds[..|ds| - 1], radix), DigitValue(ds[|ds| - 1], radix))
      case (Some(n), Some(d)) => Some(Scale(n, radix) + d)
      case _ => None
  }

  /** t starts with one of the prefixes 0x, 0o, 0b (either case). */
  predicate HasRadixPrefix(t: string) {
    |t| >= 2 && t[0] == '0' && t[1] in "xXoObB"
  }

  /** The value of a 0x, 0o or 0b numeral; None when no digits follow the
      prefix or one of them is not a digit of that radix. */
  function RadixNumeralValue(t: string): Option<int>
    requires HasRadixPrefix(t)
  {
    var radix := if t[1] in "xX" then 16 else if t[1] in "oO" then 8 else 2;
    if |t| == 2 then None
    else match DigitsValue(t[2..], radix)
      case Some(n) => Some(n)
      case None => None
  }

  /** The value of a decimal numeral with an optional + or - sign; None when
      no digits follow the sign or one of them is not a decimal digit. */
  function SignedDecimalValue(t: string): Option<int>
    requires t != []
  {
    if t[0] == '+' || t[0] == '-' then
      if |t| == 1 then None
      else match DigitsValue(t[1..], 10)
        case Some(n) => if t[0] == '-' then Some(0 - n) else Some(n)
        case None => None
    else match DigitsValue(t, 10)
      case Some(n) => Some(n)
      case None => None
  }

  /** BigInt(s): the integer a string literal denotes after trimming — empty
      (0), an optionally signed decimal numeral, or a 0x, 0o or 0b numeral —
      and None where JavaScript throws a SyntaxError. */
  function StringToBigInt(s: string): (r: Option<int>)
    ensures Trim(s) == "" ==> r == Some(0)
  {
    var t := Trim(s);
    if t == [] then Some(0)
    else if HasRadixPrefix(t) then RadixNumeralValue(t)
    else SignedDecimalValue(t)
  }

  /** BigInt gives a negative integer only for a string whose trimmed text
      starts with a minus sign; a 0x, 0o or 0b numeral is never negative. */
  lemma BigIntSign(s: string)
    ensures StringToBigInt(s).Some? && StringToBigInt(s).value < 0 ==> Trim(s) != [] && Trim(s)[0] == '-'
    ensures HasRadixPrefix(Trim(s)) && StringToBigInt(s).Some? ==> StringToBigInt(s).value >= 0
  {
    var t := Trim(s);
    if t != [] && !HasRadixPrefix(t) && t[0] != '-' {
      if t[0] == '+' && |t| > 1 {
        assert SignedDecimalValue(t) == match DigitsValue(t[1..], 10) case Some(n) => Some(n) case None => None;
      }
    }
  }

  /** The decimal numeral of n, with no leading zeros. */
  function NatToDecimal(n: nat): (r: string)
    ensures |r| >= 1
    ensures forall i :: 0 <= i < |r| ==> '0' <= r[i] <= '9'
  {
    var last := ['0' + (n % 10) as char];
    if n < 10 then last else NatToDecimal(n / 10) + last
  }

  /** The decimal numeral of an integer, as BigInt's toString writes it. */
  function IntToDecimal(n: int): string
  {
    if n < 0 then "-" + NatToDecimal(-n) else NatToDecimal(n)
  }

  lemma {:induction false} DecimalDigitsValue(n: nat)
    ensures DigitsValue(NatToDecimal(n), 10) == Some(n)
    decreases n
  {
    var r := NatToDecimal(n);
    if n >= 10 {
      DecimalDigitsValue(n / 10);
      assert r[..|r| - 1] == NatToDecimal(n / 10);
    }
    assert DigitValue(r[|r| - 1], 10) == Some(n % 10);
  }

  /** No character of a decimal numeral is white space, a space or a line break. */
  lemma DecimalHasNoWhiteSpace(n: int)
    ensures forall i :: 0 <= i < |IntToDecimal(n)| ==> !IsWhiteSpace(IntToDecimal(n)[i])
    ensures ' ' !in IntToDecimal(n) && '\n' !in IntToDecimal(n)
  {
  }

  lemma DecimalIsTrimmed(n: int)
    ensures Trim(IntToDecimal(n)) == IntToDecimal(n)
  {
    DecimalHasNoWhiteSpace(n);
    TrimFixesTrimmed(IntToDecimal(n));
  }

  lemma DecimalHasNoRadixPrefix(n: int)
    ensures !HasRadixPrefix(IntToDecimal(n))
  {
    var t := IntToDecimal(n);
    assert '0' <= t[0] <= '9' || t[0] == '-';
    assert |t| >= 2 ==> '0' <= t[1] <= '9' || t[0] == '-';
  }

  lemma SignedDecimalOfDecimal(n: int)
    ensures SignedDecimalValue(IntToDecimal(n)) == Some(n)
  {
    if n < 0 {
      SignedDecimalOfNegative(n);
    } else {
      SignedDecimalOfNatural(n);
    }
  }

  lemma SignedDecimalOfNegative(n: int)
    requires n < 0
    ensures SignedDecimalValue(IntToDecimal(n)) == Some(n)
  {
    var t, ds := IntToDecimal(n), NatToDecimal(-n);
    assert t == "-" + ds;
    assert t[0] == '-' && t[1..] == ds && |t| > 1;
    DecimalDigitsValue(-n);
    assert DigitsValue(t[1..], 10) == Some(-n);
  }

  lemma SignedDecimalOfNatural(n: nat)
    ensures SignedDecimalValue(IntToDecimal(n)) == Some(n)
  {
    var t := IntToDecimal(n);
    assert t == NatToDecimal(n);
    assert '0' <= t[0] <= '9';
    DecimalDigitsValue(n);
  }

  /** BigInt reads back the integer that IntToDecimal writes. */
  lemma BigIntOfDecimal(n: int)
    ensures StringToBigInt(IntToDecimal(n)) == Some(n)
  {
    DecimalIsTrimmed(n);
    DecimalHasNoRadixPrefix(n);
    SignedDecimalOfDecimal(n);
  }
}
