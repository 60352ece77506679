/**
 * The JavaScript string operations the command handlers rely on:
 * `String.prototype.trim`, `replace` with a string pattern (first
 * occurrence only), `split` on one character, `Array.prototype.join`,
 * truthiness of a possibly-null string and `${…}` interpolation of numbers.
 */
module Text {
  import opened Wrappers

  /** ECMAScript WhiteSpace and LineTerminator code points: what `trim` removes. */
  predicate IsSpace(c: char) {
    c == ' ' || c == '\t' || c == '\n' || c == '\r' || c == '\U{000B}' || c == '\U{000C}'
    || c == '\U{00A0}' || c == '\U{1680}' || ('\U{2000}' <= c <= '\U{200A}')
    || c == '\U{2028}' || c == '\U{2029}' || c == '\U{202F}' || c == '\U{205F}'
    || c == '\U{3000}' || c == '\U{FEFF}'
  }

  predicate AllSpace(s: string) {
    forall k :: 0 <= k < |s| ==> IsSpace(s[k])
  }

  /** Neither end of s is a space. */
  predicate IsTrimmed(s: string) {
    s == [] || (!IsSpace(s[0]) && !IsSpace(s[|s| - 1]))
  }

  /** Number of spaces at the start of s. */
  function LeadingSpaces(s: string): (n: nat)
    ensures n <= |s|
    ensures AllSpace(s[..n])
    ensures n < |s| ==> !IsSpace(s[n])
  {
    if |s| > 0 && IsSpace(s[0]) then
      var n := 1 + LeadingSpaces(s[1..]);
      assert s[..n] == [s[0]] + s[1..][..n - 1];
      n
    else 0
  }

  /** Number of spaces at the end of s. */
  function TrailingSpaces(s: string): (n: nat)
    ensures n <= |s|
    ensures AllSpace(s[|s| - n..])
    ensures n < |s| ==> !IsSpace(s[|s| - n - 1])
  {
    if |s| > 0 && IsSpace(s[|s| - 1]) then
      var t := s[..|s| - 1];
      var m := TrailingSpaces(t);
      SpacesThenSpace(s, m);
      m + 1
    else 0
  }

  /** Trailing spaces of s without its last character, then that character, a space. */
  lemma SpacesThenSpace(s: string, m: nat)
    requires 0 < |s| && IsSpace(s[|s| - 1]) && m < |s|
    requires AllSpace(s[..|s| - 1][|s| - 1 - m..])
    ensures AllSpace(s[|s| - (m + 1)..])
  {
    var t, u := s[..|s| - 1], s[|s| - (m + 1)..];
    forall k | 0 <= k < |u| ensures IsSpace(u[k]) {
      if k < m {
        assert u[k] == t[|t| - m..][k];
      }
    }
  }

  /** s splits at i and j into spaces, a middle, and spaces. */
  predicate SpacesAround(s: string, i: int, j: int) {
    0 <= i <= j <= |s| && AllSpace(s[..i]) && AllSpace(s[j..])
  }

  lemma SpaceBefore(s: string, i: int, k: int)
    requires 0 <= k < i <= |s| && AllSpace(s[..i])
    ensures IsSpace(s[k])
  {
    assert s[k] == s[..i][k];
  }

  lemma SpaceAfter(s: string, j: int, k: int)
    requires 0 <= j <= k < |s| && AllSpace(s[j..])
    ensures IsSpace(s[k])
  {
    assert s[k] == s[j..][k - j];
  }

  /** `s.trim()`: s without its leading and trailing spaces. */
  function Trim(s: string): (r: string)
    ensures IsTrimmed(r)
    ensures exists i, j :: SpacesAround(s, i, j) && r == s[i..j]
  {
    var a := LeadingSpaces(s);
    var rest := s[a..];
    var b := TrailingSpaces(rest);
    var r := rest[..|rest| - b];
    assert r == s[a..|s| - b];
    assert s[|s| - b..] == rest[|rest| - b..];
    assert SpacesAround(s, a, |s| - b);
    r
  }

  /** The characterisation in Trim's contract determines the result uniquely. */
  lemma TrimUnique(s: string, i: int, j: int)
    requires SpacesAround(s, i, j) && IsTrimmed(s[i..j])
    ensures Trim(s) == s[i..j]
  {
    var r := Trim(s);
    var i', j' :| SpacesAround(s, i', j') && r == s[i'..j'];
    SameMiddle(s, i, j, i', j');
  }

  /** Two ways of cutting spaces off both ends of s, each leaving a trimmed middle, agree. */
  lemma SameMiddle(s: string, i: int, j: int, i': int, j': int)
    requires SpacesAround(s, i, j) && IsTrimmed(s[i..j])
    requires SpacesAround(s, i', j') && IsTrimmed(s[i'..j'])
    ensures s[i..j] == s[i'..j']
  {
    if i < j {
      MiddleNotSpace(s, i, j, i', j');
      SameStart(s, i, j, i', j');
      SameStart(s, i', j', i, j);
      SameEnd(s, i, j, i', j');
      SameEnd(s, i', j', i, j);
    } else if i' < j' {
      MiddleNotSpace(s, i', j', i, j);
      assert false;
    }
  }

  /** A trimmed nonempty middle cannot start after another cut's start. */
  lemma SameStart(s: string, i: int, j: int, i': int, j': int)
    requires SpacesAround(s, i, j) && IsTrimmed(s[i..j]) && i < j
    requires SpacesAround(s, i', j') && i' < j'
    ensures i' <= i
  {
    assert s[i] == s[i..j][0];
    if i < i' { SpaceBefore(s, i', i); }
  }

  /** A trimmed nonempty middle cannot end before another cut's end. */
  lemma SameEnd(s: string, i: int, j: int, i': int, j': int)
    requires SpacesAround(s, i, j) && IsTrimmed(s[i..j]) && i < j
    requires SpacesAround(s, i', j') && i' < j'
    ensures j <= j'
  {
    assert s[j - 1] == s[i..j][j - i - 1];
    if j' < j { SpaceAfter(s, j', j - 1); }
  }

  /** A trimmed nonempty middle has a character that is no space, so every other cut leaves something too. */
  lemma MiddleNotSpace(s: string, i: int, j: int, i': int, j': int)
    requires SpacesAround(s, i, j) && IsTrimmed(s[i..j]) && i < j
    requires SpacesAround(s, i', j')
    ensures i' < j'
  {
    assert s[i] == s[i..j][0];
    if j' <= i' {
      if i < i' { SpaceBefore(s, i', i); } else { SpaceAfter(s, j', i); }
    }
  }

  /** Trimming leaves nothing exactly when the string is all spaces. */
  lemma TrimEmpty(s: string)
    ensures Trim(s) == "" <==> AllSpace(s)
  {
    if AllSpace(s) {
      assert s[..0] == [] && s[0..0] == [];
      TrimUnique(s, 0, 0);
    } else {
      var r := Trim(s);
      var i, j :| SpacesAround(s, i, j) && r == s[i..j];
      var k :| 0 <= k < |s| && !IsSpace(s[k]);
      if k < i { SpaceBefore(s, i, k); } else if j <= k { SpaceAfter(s, j, k); } else { assert r[k - i] == s[k]; }
    }
  }

  /** Trimming twice is trimming once. */
  lemma TrimIdempotent(s: string)
    ensures Trim(Trim(s)) == Trim(s)
  {
    var r := Trim(s);
    assert r[..0] == [] && r[|r|..] == [];
    assert r[0..|r|] == r;
    TrimUnique(r, 0, |r|);
  }

  // ---------------------------------------------------------------------
  // Searching and replacing

  /** The pattern occurs in s at index k. */
  predicate OccursAt(s: string, pat: string, k: int) {
    0 <= k && k + |pat| <= |s| && s[k..k + |pat|] == pat
  }

  /** The index of the first occurrence of pat in s (`s.indexOf(pat)`), None for -1. */
  function Find(s: string, pat: string): (r: Option<nat>)
    ensures r.Some? ==> OccursAt(s, pat, r.value)
    ensures r.Some? ==> forall k :: 0 <= k < r.value ==> !OccursAt(s, pat, k)
    ensures r.None? ==> forall k :: !OccursAt(s, pat, k)
    decreases |s|
  {
    if |s| < |pat| then None
    else if s[..|pat|] == pat then Some(0)
    else
      var rest := Find(s[1..], pat);
      forall k | 1 <= k && k + |pat| <= |s| ensures OccursAt(s, pat, k) <==> OccursAt(s[1..], pat, k - 1) {
        assert s[k..k + |pat|] == s[1..][k - 1..k - 1 + |pat|];
      }
      match rest
      case None => None
      case Some(k) => Some(k + 1)
  }

  /** `s.replace(pat, rep)` with a string pattern: only the first occurrence is replaced. */
  function ReplaceFirst(s: string, pat: string, rep: string): (r: string)
  {
    match Find(s, pat)
    case None => s
    case Some(i) => s[..i] + rep + s[i + |pat|..]
  }

  /** For a one-character pattern the first occurrence is the first index holding that character. */
  lemma FindChar(s: string, c: char)
    ensures Find(s, [c]) == if c in s then Some(IndexOf(s, c)) else None
  {
    forall k | OccursAt(s, [c], k) ensures s[k] == c {
      assert s[k] == s[k..k + 1][0];
    }
    if c in s {
      var i := IndexOf(s, c);
      assert s[i..i + 1] == [c];
    }
  }

  /** `s.replace(c, '')` for a one-character pattern deletes exactly the first c, if there is one. */
  lemma RemoveFirstChar(s: string, c: char)
    ensures c !in s ==> ReplaceFirst(s, [c], "") == s
    ensures c in s ==>
      var i := IndexOf(s, c);
      i < |s| && s[i] == c && c !in s[..i] && ReplaceFirst(s, [c], "") == s[..i] + s[i + 1..]
  {
    FindChar(s, c);
  }

  /** Removing the first c removes one c and keeps every other character. */
  lemma RemoveFirstCharCount(s: string, c: char)
    ensures multiset(ReplaceFirst(s, [c], "")) == if c in s then multiset(s) - multiset{c} else multiset(s)
  {
    RemoveFirstChar(s, c);
    if c in s {
      DropOneCount(s, IndexOf(s, c));
    }
  }

  /** Dropping the character at i from s takes exactly that character out of its multiset. */
  lemma DropOneCount(s: string, i: int)
    requires 0 <= i < |s|
    ensures multiset(s[..i] + s[i + 1..]) == multiset(s) - multiset{s[i]}
  {
    var p, t := s[..i], s[i + 1..];
    var ct := [s[i]] + t;
    assert s == p + ct;
    assert multiset(ct) == multiset{s[i]} + multiset(t);
    assert multiset(s) == multiset(p) + multiset(ct);
    assert multiset(p + t) == multiset(p) + multiset(t);
  }

  // ---------------------------------------------------------------------
  // split and join

  /** Index of the first c in s, or |s| when there is none. */
  function IndexOf(s: string, c: char): (i: nat)
    ensures i <= |s|
    ensures i < |s| ==> s[i] == c
    ensures forall k :: 0 <= k < i ==> s[k] != c
  {
    if |s| == 0 || s[0] == c then 0 else 1 + IndexOf(s[1..], c)
  }

  /** `s.split(c)`: the pieces between occurrences of c. */
  function Split(s: string, c: char): (parts: seq<string>)
    ensures |parts| >= 1
    ensures forall p :: p in parts ==> c !in p
    decreases |s|
  {
    var i := IndexOf(s, c);
    if i == |s| then [s] else [s[..i]] + Split(s[i + 1..], c)
  }

  /** `xs.join(sep)`. */
  function Join(xs: seq<string>, sep: string): string
  {
    if |xs| == 0 then "" else if |xs| == 1 then xs[0] else xs[0] + sep + Join(xs[1..], sep)
  }

  /** Joining a piece in front of a nonempty list puts the separator between them. */
  lemma JoinCons(x: string, xs: seq<string>, sep: string)
    requires |xs| >= 1
    ensures Join([x] + xs, sep) == x + sep + Join(xs, sep)
  {
    assert ([x] + xs)[1..] == xs;
  }

  /** Concatenation regroups freely. */
  lemma Assoc(x: string, y: string, z: string)
    ensures x + (y + z) == x + y + z
  {
  }

  /** Joining a list with one more piece at the end puts the separator before it. */
  lemma {:induction false} JoinSnoc(xs: seq<string>, x: string, sep: string)
    requires |xs| >= 1
    ensures Join(xs + [x], sep) == Join(xs, sep) + sep + x
    decreases |xs|
  {
    if |xs| == 1 {
      assert xs + [x] == [xs[0]] + [x];
      JoinCons(xs[0], [x], sep);
    } else {
      assert xs + [x] == [xs[0]] + (xs[1..] + [x]);
      JoinCons(xs[0], xs[1..] + [x], sep);
      JoinSnoc(xs[1..], x, sep);
      assert xs == [xs[0]] + xs[1..];
      JoinCons(xs[0], xs[1..], sep);
      var h, t := xs[0] + sep, Join(xs[1..], sep);
      Assoc(h, t + sep, x);
      Assoc(h, t, sep);
    }
  }

  /** Lines joined by a separator, with an empty last line, are the lines each followed by the separator. */
  lemma JoinTerminated(a: string, b: string, c: string, rest: seq<string>, sep: string)
    requires |rest| <= 1
    ensures Join([a, b, c] + rest + [""], sep)
      == a + sep + b + sep + c + sep + (if |rest| == 1 then rest[0] + sep else "")
  {
    assert [a] + [b] == [a, b] && [a, b] + [c] == [a, b, c];
    JoinSnoc([a], b, sep);
    JoinSnoc([a, b], c, sep);
    var three := a + sep + b + sep + c;
    assert Join([a, b, c], sep) == three;
    if |rest| == 1 {
      var r := rest[0];
      assert [a, b, c] + rest == [a, b, c] + [r];
      JoinSnoc([a, b, c], r, sep);
      JoinSnoc([a, b, c] + rest, "", sep);
      Assoc(three + sep, r, sep);
      assert three + sep + r + sep + "" == three + sep + r + sep;
    } else {
      assert [a, b, c] + rest == [a, b, c];
      JoinSnoc([a, b, c], "", sep);
      assert three + sep + "" == three + sep;
    }
  }

  /** `head + xs[0] + xs[1] + …`, grouped to the left as written out. */
  function AppendAll(head: string, xs: seq<string>): string
    decreases |xs|
  {
    if |xs| == 0 then head else AppendAll(head + xs[0], xs[1..])
  }

  /** Appending pieces keeps the characters already there. */
  lemma {:induction false} KeepIndex(head: string, xs: seq<string>, k: int)
    requires 0 <= k < |head|
    ensures k < |AppendAll(head, xs)| && AppendAll(head, xs)[k] == head[k]
    decreases |xs|
  {
    if |xs| > 0 {
      KeepIndex(head + xs[0], xs[1..], k);
    }
  }

  /** A string followed by a nonempty tail: the string is a prefix, and the tail's first character follows it. */
  lemma HeadThenTail(head: string, tail: string)
    requires |tail| > 0
    ensures |head| < |head + tail| && (head + tail)[..|head|] == head && (head + tail)[|head|] == tail[0]
  {
  }

  /** A string is the text before position i, the character at i, and the text after it. */
  lemma CutAt(s: string, i: int)
    requires 0 <= i < |s|
    ensures s == s[..i] + [s[i]] + s[i + 1..]
  {
  }

  /** Joining the pieces of a split with the same character gives back the string. */
  lemma {:induction false} JoinSplit(s: string, c: char)
    ensures Join(Split(s, c), [c]) == s
    decreases |s|
  {
    var i := IndexOf(s, c);
    if i < |s| {
      var rest := s[i + 1..];
      var ps := Split(rest, c);
      assert Split(s, c) == [s[..i]] + ps;
      JoinSplit(rest, c);
      JoinCons(s[..i], ps, [c]);
      CutAt(s, i);
      assert [s[i]] == [c];
    } else {
      assert Split(s, c) == [s];
    }
  }

  /** Splitting a join of pieces free of c on c gives back the pieces. */
  lemma {:induction false} SplitJoin(xs: seq<string>, c: char)
    requires |xs| >= 1
    requires forall k :: 0 <= k < |xs| ==> c !in xs[k]
    ensures Split(Join(xs, [c]), c) == xs
    decreases |xs|
  {
    var x := xs[0];
    if |xs| == 1 {
      assert IndexOf(x, c) == |x|;
    } else {
      var tail := Join(xs[1..], [c]);
      JoinCons(x, xs[1..], [c]);
      assert [x] + xs[1..] == xs;
      SplitAfterPiece(x, tail, c);
      SplitJoin(xs[1..], c);
    }
  }

  /** Splitting a piece free of c, then c, then more text gives the piece and the split of the rest. */
  lemma SplitAfterPiece(x: string, tail: string, c: char)
    requires c !in x
    ensures Split(x + [c] + tail, c) == [x] + Split(tail, c)
  {
    var s := x + [c] + tail;
    IndexOfUnique(s, c, |x|);
    assert s[..|x|] == x;
    assert s[|x| + 1..] == tail;
  }

  /** The first piece of a split is the text before the first c; the rest split what follows it. */
  lemma SplitHead(s: string, c: char)
    ensures Split(s, c)[0] == s[..IndexOf(s, c)]
    ensures |Split(s, c)| > 1 <==> c in s
    ensures c in s ==> Split(s, c)[1..] == Split(s[IndexOf(s, c) + 1..], c)
  {
    var i := IndexOf(s, c);
    if i == |s| {
      assert Split(s, c) == [s];
      assert s[..|s|] == s;
      assert c !in s by {
        forall k | 0 <= k < |s| ensures s[k] != c { }
      }
    } else {
      var rest := Split(s[i + 1..], c);
      assert Split(s, c) == [s[..i]] + rest;
      assert ([s[..i]] + rest)[1..] == rest;
      assert s[i] == c;
    }
  }

  /** The second piece of a split is the text between the first c and the next. */
  lemma SplitSecond(s: string, c: char)
    requires c in s
    ensures var rest := s[IndexOf(s, c) + 1..];
      |Split(s, c)| > 1 && Split(s, c)[1] == rest[..IndexOf(rest, c)]
  {
    var rest := s[IndexOf(s, c) + 1..];
    SplitHead(s, c);
    SplitHead(rest, c);
    assert Split(s, c)[1] == Split(s, c)[1..][0];
  }

  // ---------------------------------------------------------------------
  // JavaScript values in strings

  /** `x ? … : …` and `x || y` on a possibly-null string: null and "" are falsy. */
  predicate Truthy(o: Option<string>) {
    o.Some? && o.value != ""
  }

  /** `match[1]?.trim()` followed by a falsiness test: the trimmed argument, or None when it is absent or blank. */
  function TrimmedArg(arg: Option<string>): (r: Option<string>)
    ensures r.None? <==> arg.None? || AllSpace(arg.value)
    ensures r.Some? ==> r.value == Trim(arg.value) && r.value != "" && IsTrimmed(r.value)
  {
    match arg
    case None => None
    case Some(s) =>
      TrimEmpty(s);
      if Trim(s) == "" then None else Some(Trim(s))
  }

  /** The first c in u + v is the first in v when u has none. */
  lemma IndexOfPrefix(u: string, v: string, c: char)
    requires c !in u
    ensures IndexOf(u + v, c) == |u| + IndexOf(v, c)
  {
    var s := u + v;
    var i := |u| + IndexOf(v, c);
    forall k | 0 <= k < i ensures s[k] != c {
      if k < |u| {
        assert s[k] == u[k];
      } else {
        assert s[k] == v[k - |u|];
      }
    }
    if IndexOf(v, c) < |v| {
      assert s[i] == v[IndexOf(v, c)];
    }
    IndexOfUnique(s, c, i);
  }

  /** IndexOf is characterised by its contract. */
  lemma IndexOfUnique(s: string, c: char, i: int)
    requires 0 <= i <= |s|
    requires forall k :: 0 <= k < i ==> s[k] != c
    requires i < |s| ==> s[i] == c
    ensures IndexOf(s, c) == i
  {
  }

  /** `${x}` of a possibly-null string. */
  function Interpolate(o: Option<string>): string {
    match o
    case Some(s) => s
    case None => "null"
  }

  /** `${x}` of a value that may be undefined (a missing key of an object, say). */
  function InterpolateUndefined(o: Option<string>): string {
    match o
    case Some(s) => s
    case None => "undefined"
  }

  function DigitChar(d: int): char
    requires 0 <= d < 10
  {
    "0123456789"[d]
  }

  predicate IsDigit(c: char) {
    '0' <= c <= '9'
  }

  /** `${n}` of a non-negative integer: its decimal digits, with no leading zero. */
  function NatToString(n: nat): (s: string)
    ensures |s| >= 1
    ensures forall k :: 0 <= k < |s| ==> IsDigit(s[k])
    ensures |s| == 1 || s[0] != '0'
    ensures s[0] == '0' <==> n == 0
    decreases n
  {
    if n < 10 then [DigitChar(n)] else NatToString(n / 10) + [DigitChar(n % 10)]
  }

  /** `${i}` of an integer. */
  function IntToString(i: int): string {
    if i < 0 then "-" + NatToString(-i) else NatToString(i)
  }

  function DigitValue(c: char): (d: int)
    requires IsDigit(c)
    ensures 0 <= d < 10
  {
    c as int - '0' as int
  }

  /** The number a string of decimal digits denotes. */
  function DecimalValue(s: string): nat
    requires forall k :: 0 <= k < |s| ==> IsDigit(s[k])
  {
    if |s| == 0 then 0 else 10 * DecimalValue(s[..|s| - 1]) + DigitValue(s[|s| - 1])
  }

  /** Reading back the decimal rendering of n gives n. */
  lemma {:induction false} DecimalRoundTrip(n: nat)
    ensures DecimalValue(NatToString(n)) == n
    decreases n
  {
    var s := NatToString(n);
    if n >= 10 {
      DecimalRoundTrip(n / 10);
      assert s[..|s| - 1] == NatToString(n / 10);
    }
  }
}
