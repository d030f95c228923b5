/** The JavaScript string operations the template engine relies on, written out on
    `string` (a sequence of `char`): `trim`, the `\s` class, `split`, `join`,
    `indexOf`, `includes`, `replace` of a first literal occurrence, `toLowerCase`
    on the letters that matter here, `Number.prototype.toString` and `padStart`. */
module JsStrings {

  /** ECMAScript WhiteSpace and LineTerminator: what `trim` removes and `\s` matches. */
  predicate IsSpace(c: char) {
    c == '\t' || c == '\n' || c == '\U{B}' || c == '\U{C}' || c == '\r' || c == ' '
    || c == '\U{A0}' || c == '\U{1680}' || ('\U{2000}' <= c <= '\U{200A}')
    || c == '\U{2028}' || c == '\U{2029}' || c == '\U{202F}' || c == '\U{205F}'
    || c == '\U{3000}' || c == '\U{FEFF}'
  }

  predicate AllSpace(s: string) {
    forall i :: 0 <= i < |s| ==> IsSpace(s[i])
  }

  /** `pat` occurs in `s` at index `i`. */
  predicate OccursAt(s: string, pat: string, i: int) {
    0 <= i && i + |pat| <= |s| && s[i..i + |pat|] == pat
  }

  /** A slice of a slice is a slice. */
  lemma {:induction false} SliceOfSlice(s: string, i: nat, e: nat, a: nat, b: nat)
    requires i <= e <= |s| && a <= b <= e - i
    ensures s[i..e][a..b] == s[i + a..i + b]
  {
    forall t | 0 <= t < b - a ensures s[i..e][a..b][t] == s[i + a..i + b][t] {
      assert s[i..e][a..b][t] == s[i..e][a + t] == s[i + a + t];
    }
  }

  /** Adjacent slices concatenate. */
  lemma {:induction false} SliceSplit(s: string, a: nat, b: nat, c: nat)
    requires a <= b <= c <= |s|
    ensures s[a..c] == s[a..b] + s[b..c]
  {
  }

  /** A string `trim` leaves as it is: empty, or non-space at both ends. */
  predicate IsTrimmed(s: string) {
    s == [] || (!IsSpace(s[0]) && !IsSpace(s[|s| - 1]))
  }

  /** The end of the run of whitespace starting at `i`. */
  function SpacesFrom(s: string, i: nat): (n: nat)
    requires i <= |s|
    ensures i <= n <= |s|
    ensures forall j :: i <= j < n ==> IsSpace(s[j])
    ensures n == |s| || !IsSpace(s[n])
    decreases |s| - i
  {
    if i < |s| && IsSpace(s[i]) then SpacesFrom(s, i + 1) else i
  }

  /** The start of the run of whitespace ending at `e`. */
  function SpacesBefore(s: string, e: nat): (n: nat)
    requires e <= |s|
    ensures n <= e
    ensures forall j :: n <= j < e ==> IsSpace(s[j])
    ensures n == 0 || !IsSpace(s[n - 1])
  {
    if e > 0 && IsSpace(s[e - 1]) then SpacesBefore(s, e - 1) else e
  }

  /** `s.trimStart()`: drops the longest all-space prefix. */
  function TrimStart(s: string): (r: string)
    ensures |r| <= |s| && r == s[|s| - |r|..]
    ensures AllSpace(s[..|s| - |r|])
    ensures r == [] || !IsSpace(r[0])
  {
    s[SpacesFrom(s, 0)..]
  }

  /** `s.trimEnd()`: drops the longest all-space suffix. */
  function TrimEnd(s: string): (r: string)
    ensures |r| <= |s| && r == s[..|r|]
    ensures AllSpace(s[|r|..])
    ensures r == [] || !IsSpace(r[|r| - 1])
  {
    s[..SpacesBefore(s, |s|)]
  }

  /** `s.trim()`. */
  function Trim(s: string): (r: string)
    ensures IsTrimmed(r)
    ensures IsTrimmed(s) ==> r == s
    ensures exists i :: OccursAt(s, r, i)
  {
    var t := TrimStart(s);
    var r := TrimEnd(t);
    assert OccursAt(s, r, |s| - |t|);
    r
  }

  lemma {:induction false} TrimIdempotent(s: string)
    ensures Trim(Trim(s)) == Trim(s)
  {
  }

  /** `s.indexOf(c)` for a one-character needle: -1 when absent. */
  function IndexOf(s: string, c: char): (i: int)
    ensures -1 <= i < |s|
    ensures i == -1 <==> c !in s
    ensures i >= 0 ==> s[i] == c && c !in s[..i]
  {
    if |s| == 0 then -1
    else if s[0] == c then 0
    else
      var j := IndexOf(s[1..], c);
      if j == -1 then -1 else j + 1
  }

  /** `parts.join(sep)`. */
  function Join(parts: seq<string>, sep: string): string {
    if |parts| == 0 then ""
    else if |parts| == 1 then parts[0]
    else parts[0] + sep + Join(parts[1..], sep)
  }

  /** `s.split(c)` for a one-character separator. */
  function Split(s: string, c: char): (parts: seq<string>)
    ensures |parts| >= 1
    ensures forall k :: 0 <= k < |parts| ==> c !in parts[k]
  {
    if |s| == 0 then [""]
    else
      var rest := Split(s[1..], c);
      if s[0] == c then [""] + rest
      else [[s[0]] + rest[0]] + rest[1..]
  }

  /** Joining the pieces of a split with the separator restores the string. */
  lemma {:induction false} JoinSplit(s: string, c: char)
    ensures Join(Split(s, c), [c]) == s
  {
    if |s| > 0 {
      var rest := Split(s[1..], c);
      JoinSplit(s[1..], c);
      if s[0] == c {
        assert Join([""] + rest, [c]) == [c] + Join(rest, [c]);
      } else {
        JoinConsHead(s[0], rest, c);
      }
      assert s == [s[0]] + s[1..];
    }
  }

  /** Gluing a character onto the first piece glues it onto the join. */
  lemma {:induction false} JoinConsHead(x: char, rest: seq<string>, c: char)
    requires |rest| >= 1
    ensures Join([[x] + rest[0]] + rest[1..], [c]) == [x] + Join(rest, [c])
  {
    var parts := [[x] + rest[0]] + rest[1..];
    if |rest| > 1 {
      assert parts[1..] == rest[1..];
    }
  }

  /** A split has one piece more than there are separators. */
  lemma {:induction false} SplitCount(s: string, c: char)
    ensures |Split(s, c)| == multiset(s)[c] + 1
  {
    if |s| > 0 {
      SplitCount(s[1..], c);
      assert s == [s[0]] + s[1..];
      assert multiset(s) == multiset{s[0]} + multiset(s[1..]);
    }
  }

  /** The first piece of a split is the text before the first separator. */
  lemma {:induction false} SplitHead(s: string, c: char)
    ensures c !in s ==> Split(s, c) == [s]
    ensures c in s ==> Split(s, c)[0] == s[..IndexOf(s, c)]
  {
    if |s| > 0 {
      SplitHead(s[1..], c);
      assert s == [s[0]] + s[1..];
      if s[0] != c && c in s {
        assert c in s[1..];
        assert s[..IndexOf(s, c)] == [s[0]] + s[1..][..IndexOf(s[1..], c)];
      }
    }
  }

  /** Splitting undoes joining, when no part holds the separator. */
  lemma {:induction false} SplitJoin(parts: seq<string>, c: char)
    requires |parts| >= 1
    requires forall k :: 0 <= k < |parts| ==> c !in parts[k]
    ensures Split(Join(parts, [c]), c) == parts
  {
    if |parts| == 1 {
      SplitNoSeparator(parts[0], c);
    } else {
      SplitJoin(parts[1..], c);
      SplitAppend(parts[0], Join(parts[1..], [c]), c);
    }
  }

  lemma {:induction false} SplitNoSeparator(s: string, c: char)
    requires c !in s
    ensures Split(s, c) == [s]
  {
    if |s| > 0 {
      assert s == [s[0]] + s[1..];
      SplitNoSeparator(s[1..], c);
    }
  }

  /** Split of `a + [c] + b`, with no separator in `a`, starts with `a`. */
  lemma {:induction false} SplitAppend(a: string, b: string, c: char)
    requires c !in a
    ensures Split(a + [c] + b, c) == [a] + Split(b, c)
  {
    if |a| == 0 {
      assert a + [c] + b == [c] + b;
      assert ([c] + b)[1..] == b;
    } else {
      SplitAppend(a[1..], b, c);
      assert (a + [c] + b)[1..] == a[1..] + [c] + b;
      assert [a[0]] + a[1..] == a;
    }
  }

  /** `s.indexOf(pat, from)` for a string needle, searching from `from`: -1 when absent. */
  function IndexOfStringFrom(s: string, pat: string, from: nat): (r: int)
    requires from <= |s|
    ensures r == -1 || (from <= r && OccursAt(s, pat, r))
    ensures forall j :: from <= j && (r == -1 || j < r) ==> !OccursAt(s, pat, j)
    decreases |s| - from
  {
    if from + |pat| > |s| then -1
    else if s[from..from + |pat|] == pat then from
    else IndexOfStringFrom(s, pat, from + 1)
  }

  /** `s.indexOf(pat)`. */
  function IndexOfString(s: string, pat: string): int {
    IndexOfStringFrom(s, pat, 0)
  }

  /** `s.includes(sub)`. */
  predicate Includes(s: string, sub: string) {
    IndexOfString(s, sub) >= 0
  }

  lemma {:induction false} IncludesAt(s: string, sub: string, i: nat)
    requires OccursAt(s, sub, i)
    ensures Includes(s, sub)
  {
  }

  /** `s.replace(pat, '')` with a string pattern: only the first occurrence goes. */
  function DeleteFirst(s: string, pat: string): (r: string)
    ensures IndexOfString(s, pat) == -1 ==> r == s
    ensures IndexOfString(s, pat) >= 0 ==>
              |r| == |s| - |pat| && s == r[..IndexOfString(s, pat)] + pat + r[IndexOfString(s, pat)..]
  {
    var i := IndexOfString(s, pat);
    if i < 0 then s
    else
      var r := s[..i] + s[i + |pat|..];
      assert r[..i] == s[..i] && r[i..] == s[i + |pat|..];
      assert s == s[..i] + s[i..i + |pat|] + s[i + |pat|..];
      r
  }

  /** `toLowerCase` on one character, for the ASCII capitals. Every other
      character that lower-cases to an ASCII letter (U+0130, U+212A) yields a
      letter that none of the words searched for here can use in that place. */
  function LowerAscii(c: char): char {
    if 'A' <= c <= 'Z' then (c as int + 32) as char else c
  }

  /** `s.toLowerCase()` on ASCII: no capital is left, each capital becomes its
      own small letter, and every other character is kept. */
  function ToLower(s: string): (r: string)
    ensures |r| == |s|
    ensures forall i :: 0 <= i < |r| ==> !('A' <= r[i] <= 'Z')
    ensures forall i :: 0 <= i < |s| && !('A' <= s[i] <= 'Z') ==> r[i] == s[i]
    ensures forall i :: 0 <= i < |s| && 'A' <= s[i] <= 'Z' ==>
              'a' <= r[i] <= 'z' && r[i] as int - 'a' as int == s[i] as int - 'A' as int
  {
    seq(|s|, i requires 0 <= i < |s| => LowerAscii(s[i]))
  }

  predicate IsDigit(c: char) {
    '0' <= c <= '9'
  }

  function DigitChar(d: nat): char
    requires d < 10
  {
    ('0' as int + d) as char
  }

  function DigitValue(c: char): (d: nat)
    requires IsDigit(c)
    ensures d < 10 && DigitChar(d) == c
  {
    c as int - '0' as int
  }

  /** Value of a non-empty run of decimal digits. */
  function DigitsValue(s: string): nat
    requires |s| > 0 && forall i :: 0 <= i < |s| ==> IsDigit(s[i])
  {
    assert IsDigit(s[|s| - 1]);
    var last := DigitValue(s[|s| - 1]);
    if |s| == 1 then last else DigitsValue(s[..|s| - 1]) * 10 + last
  }

  /** `n.toString()` for a non-negative integer. */
  function NatToString(n: nat): (r: string)
    ensures |r| > 0 && forall i :: 0 <= i < |r| ==> IsDigit(r[i])
    ensures n < 10 <==> |r| == 1
    ensures r[0] == '0' <==> n == 0
    ensures DigitsValue(r) == n
  {
    if n < 10 then [DigitChar(n)]
    else
      var r := NatToString(n / 10) + [DigitChar(n % 10)];
      assert r[..|r| - 1] == NatToString(n / 10);
      r
  }

  /** `n.toString()` for an integer: a minus sign before the magnitude. */
  function IntToString(n: int): (r: string)
    ensures |r| > 0
    ensures n >= 0 ==> r == NatToString(n)
    ensures n < 0 ==> r == "-" + NatToString(-n)
  {
    if n < 0 then "-" + NatToString(-n) else NatToString(n)
  }

  /** `n.toString().padStart(2, '0')`. */
  function Pad2(n: nat): (r: string)
    ensures |r| >= 2
    ensures n < 100 ==> |r| == 2
    ensures forall i :: 0 <= i < |r| ==> IsDigit(r[i])
    ensures DigitsValue(r) == n
  {
    var t := NatToString(n);
    if |t| < 2 then
      var r := "0" + t;
      assert r[..1] == "0";
      r
    else t
  }

  /** The pieces with the separators between them: `parts[0] + seps[0] +
      parts[1] + ... + parts[n]`. */
  function Interleave(parts: seq<string>, seps: seq<string>): string
    requires |parts| == |seps| + 1
    decreases |seps|
  {
    if seps == [] then parts[0] else parts[0] + seps[0] + Interleave(parts[1..], seps[1..])
  }

  /** Gluing a character onto the first piece glues it onto the whole. */
  lemma {:induction false} InterleaveConsHead(c: char, parts: seq<string>, seps: seq<string>)
    requires |parts| == |seps| + 1
    ensures Interleave([[c] + parts[0]] + parts[1..], seps) == [c] + Interleave(parts, seps)
  {
    var glued := [[c] + parts[0]] + parts[1..];
    if seps != [] {
      assert glued[1..] == parts[1..];
      var tail := Interleave(parts[1..], seps[1..]);
      assert Interleave(glued, seps) == ([c] + parts[0]) + seps[0] + tail;
      assert ([c] + parts[0]) + seps[0] + tail == [c] + (parts[0] + seps[0] + tail);
    }
  }

  /** The maximal runs of whitespace of `s`, left to right. */
  function SpaceRuns(s: string): (runs: seq<string>)
    ensures forall k :: 0 <= k < |runs| ==> runs[k] != [] && AllSpace(runs[k])
    decreases |s|
  {
    if |s| == 0 then []
    else if IsSpace(s[0]) then
      var run := s[..SpacesFrom(s, 0)];
      var rest := SpaceRuns(TrimStart(s));
      assert forall k :: 0 < k < |[run] + rest| ==> ([run] + rest)[k] == rest[k - 1];
      [run] + rest
    else SpaceRuns(s[1..])
  }

  /** `s.split(/\s+/)`: the pieces between the maximal runs of whitespace. A
      leading run gives an empty first piece, a trailing run an empty last
      piece, and the empty string gives one empty piece. */
  function SplitOnSpaces(s: string): (parts: seq<string>)
    ensures |parts| >= 1
    ensures forall k :: 0 <= k < |parts| ==> forall i :: 0 <= i < |parts[k]| ==> !IsSpace(parts[k][i])
    ensures parts[0] == [] <==> s == [] || IsSpace(s[0])
    decreases |s|
  {
    if |s| == 0 then [""]
    else if IsSpace(s[0]) then [""] + SplitOnSpaces(TrimStart(s))
    else
      var rest := SplitOnSpaces(s[1..]);
      [[s[0]] + rest[0]] + rest[1..]
  }

  /** The text is its pieces with its whitespace runs between them: the split
      takes the text apart exactly at its maximal runs of whitespace. */
  lemma {:induction false} SplitOnSpacesSpaced(s: string)
    ensures |SplitOnSpaces(s)| == |SpaceRuns(s)| + 1
    ensures Interleave(SplitOnSpaces(s), SpaceRuns(s)) == s
    decreases |s|
  {
    if |s| > 0 {
      var parts := SplitOnSpaces(s);
      if IsSpace(s[0]) {
        var n := SpacesFrom(s, 0);
        var t := TrimStart(s);
        SplitOnSpacesSpaced(t);
        assert parts == [""] + SplitOnSpaces(t);
        assert SpaceRuns(s) == [s[..n]] + SpaceRuns(t);
        InterleaveEmptyHead(s[..n], SplitOnSpaces(t), SpaceRuns(t));
        assert s == s[..n] + t;
      } else {
        SplitOnSpacesSpaced(s[1..]);
        InterleaveConsHead(s[0], SplitOnSpaces(s[1..]), SpaceRuns(s[1..]));
        assert s == [s[0]] + s[1..];
      }
    }
  }

  /** Every piece of a whitespace split after the first one, except the last,
      holds at least one character. */
  lemma {:induction false} MiddlePiecesNonEmpty(s: string)
    ensures forall k :: 0 < k < |SplitOnSpaces(s)| - 1 ==> SplitOnSpaces(s)[k] != []
    decreases |s|
  {
    if |s| > 0 {
      var parts := SplitOnSpaces(s);
      if IsSpace(s[0]) {
        var t := TrimStart(s);
        MiddlePiecesNonEmpty(t);
        var rest := SplitOnSpaces(t);
        assert parts == [""] + rest;
        forall k | 0 < k < |parts| - 1 ensures parts[k] != [] {
          assert parts[k] == rest[k - 1];
        }
      } else {
        MiddlePiecesNonEmpty(s[1..]);
        var rest := SplitOnSpaces(s[1..]);
        forall k | 0 < k < |parts| - 1 ensures parts[k] != [] {
          assert parts[k] == rest[k];
        }
      }
    }
  }

  /** An empty first piece followed by a separator. */
  lemma {:induction false} InterleaveEmptyHead(sep: string, parts: seq<string>, seps: seq<string>)
    requires |parts| == |seps| + 1
    ensures Interleave([""] + parts, [sep] + seps) == sep + Interleave(parts, seps)
  {
    assert ([""] + parts)[1..] == parts && ([sep] + seps)[1..] == seps;
  }

  /** A non-space first character joins the first piece of the rest. */
  lemma {:induction false} SplitOnSpacesCons(c: char, y: string)
    requires !IsSpace(c)
    ensures SplitOnSpaces([c] + y) == [[c] + SplitOnSpaces(y)[0]] + SplitOnSpaces(y)[1..]
  {
    assert ([c] + y)[0] == c && ([c] + y)[1..] == y;
  }

  /** `parts.filter(w => w.length > 0)`. */
  function NonEmpty(parts: seq<string>): (r: seq<string>)
    ensures |r| <= |parts|
    ensures forall k :: 0 <= k < |r| ==> r[k] != [] && r[k] in parts
  {
    if |parts| == 0 then []
    else if parts[0] == [] then NonEmpty(parts[1..])
    else [parts[0]] + NonEmpty(parts[1..])
  }

  /** Filtering distributes over concatenation. */
  lemma {:induction false} NonEmptyAppend(x: seq<string>, y: seq<string>)
    ensures NonEmpty(x + y) == NonEmpty(x) + NonEmpty(y)
    decreases |x|
  {
    if x != [] {
      NonEmptyAppend(x[1..], y);
      assert (x + y)[0] == x[0] && (x + y)[1..] == x[1..] + y;
    } else {
      assert x + y == y;
    }
  }

  /** Filtering keeps a list without empty strings as it is. */
  lemma {:induction false} NonEmptyAll(ps: seq<string>)
    requires forall k :: 0 <= k < |ps| ==> ps[k] != []
    ensures NonEmpty(ps) == ps
    decreases |ps|
  {
    if ps != [] {
      NonEmptyAll(ps[1..]);
      assert [ps[0]] + ps[1..] == ps;
    }
  }

  /** An empty first piece is filtered out. */
  lemma {:induction false} NonEmptyEmptyHead(ps: seq<string>)
    requires |ps| > 0 && ps[0] == []
    ensures NonEmpty(ps) == NonEmpty(ps[1..])
  {
  }

  /** An empty last piece is filtered out. */
  lemma {:induction false} NonEmptyEmptyLast(ps: seq<string>)
    requires |ps| > 0 && ps[|ps| - 1] == []
    ensures NonEmpty(ps) == NonEmpty(ps[..|ps| - 1])
  {
    assert ps == ps[..|ps| - 1] + [[]];
    NonEmptyAppend(ps[..|ps| - 1], [[]]);
    assert NonEmpty([[]]) == [];
  }

  /** Where only the end pieces can be empty, filtering drops exactly the empty
      end pieces. */
  lemma {:induction false} NonEmptyInner(ps: seq<string>)
    requires |ps| >= 1 && forall k :: 0 < k < |ps| - 1 ==> ps[k] != []
    ensures var a := if ps[0] == [] then 1 else 0;
            var b := if |ps| > a && ps[|ps| - 1] == [] then |ps| - 1 else |ps|;
            a <= b && NonEmpty(ps) == ps[a..b]
  {
    var a := if ps[0] == [] then 1 else 0;
    var b := if |ps| > a && ps[|ps| - 1] == [] then |ps| - 1 else |ps|;
    var q := ps[a..];
    if a == 1 {
      NonEmptyEmptyHead(ps);
    } else {
      assert q == ps;
    }
    var mid := ps[a..b];
    if b < |ps| {
      NonEmptyEmptyLast(q);
      assert q[..|q| - 1] == mid;
    } else {
      assert q == mid;
    }
    forall k | 0 <= k < |mid| ensures mid[k] != [] {
      assert mid[k] == ps[a + k];
    }
    NonEmptyAll(mid);
  }

}
