/** The parts of Go's `strings`, `sort` and `strconv` packages that the
    session store, the schema compiler and the upload client rely on,
    modelled on strings of characters (code points). */
module Text {

  predicate HasPrefix(s: string, p: string) {
    |p| <= |s| && s[..|p|] == p
  }

  predicate HasSuffix(s: string, p: string) {
    |p| <= |s| && s[|s| - |p|..] == p
  }

  /** `t` occurs somewhere inside `s` (strings.Contains). */
  predicate Contains(s: string, t: string) {
    exists i :: 0 <= i <= |s| && HasPrefix(s[i..], t)
  }

  /** A witness position is enough to show containment. */
  lemma ContainsAt(s: string, t: string, i: nat)
    requires i <= |s| && HasPrefix(s[i..], t)
    ensures Contains(s, t)
  {
  }

  /** A string contains each of its infixes. */
  lemma ContainsInfix(a: string, b: string, c: string)
    ensures Contains(a + b + c, b)
  {
    var s := a + b + c;
    assert s[|a|..][..|b|] == b;
    ContainsAt(s, b, |a|);
  }

  /** Containment is transitive. */
  lemma ContainsTransitive(s: string, t: string, u: string)
    requires Contains(s, t) && Contains(t, u)
    ensures Contains(s, u)
  {
    var i :| 0 <= i <= |s| && HasPrefix(s[i..], t);
    var j :| 0 <= j <= |t| && HasPrefix(t[j..], u);
    forall k | 0 <= k < |u|
      ensures s[i + j + k] == u[k]
    {
      assert s[i..][..|t|][j + k] == t[j + k];
      assert t[j..][..|u|][k] == u[k];
    }
    assert s[i + j..][..|u|] == u;
    ContainsAt(s, u, i + j);
  }

  lemma PrefixOfAppend(x: string, y: string)
    ensures HasPrefix(x + y, x)
  {
    assert (x + y)[..|x|] == x;
  }

  lemma PrefixTransitive(s: string, t: string, u: string)
    requires HasPrefix(s, t) && HasPrefix(t, u)
    ensures HasPrefix(s, u)
  {
    assert s[..|u|] == t[..|u|];
  }

  /** A string contains its prefixes. */
  lemma PrefixContained(s: string, p: string)
    requires HasPrefix(s, p)
    ensures Contains(s, p)
  {
    assert s[0..] == s;
    ContainsAt(s, p, 0);
  }

  /** What a strings.Builder holds after each string has been written to
      it in turn. */
  function Concat(pieces: seq<string>): string {
    if pieces == [] then "" else Concat(pieces[..|pieces| - 1]) + pieces[|pieces| - 1]
  }

  /** What was written first is a prefix of the whole. */
  lemma {:induction false} ConcatPrefix(pieces: seq<string>, k: nat)
    requires k <= |pieces|
    ensures HasPrefix(Concat(pieces), Concat(pieces[..k]))
    decreases |pieces|
  {
    if k == |pieces| {
      assert pieces[..k] == pieces;
    } else {
      var init := pieces[..|pieces| - 1];
      ConcatPrefix(init, k);
      assert init[..k] == pieces[..k];
      PrefixOfAppend(Concat(init), pieces[|pieces| - 1]);
      PrefixTransitive(Concat(pieces), Concat(init), Concat(pieces[..k]));
    }
  }

  /** What was written first begins the whole. */
  lemma ConcatFirst(pieces: seq<string>)
    requires |pieces| >= 1
    ensures HasPrefix(Concat(pieces), pieces[0])
  {
    ConcatPrefix(pieces, 1);
    assert pieces[..1][..0] == [];
    assert Concat(pieces[..1]) == [] + pieces[0];
    assert [] + pieces[0] == pieces[0];
  }

  /** Every written string occurs in the whole. */
  lemma ConcatHasPiece(pieces: seq<string>, k: nat)
    requires k < |pieces|
    ensures Contains(Concat(pieces), pieces[k])
  {
    var p := pieces[k];
    assert p[0..][..|p|] == p;
    ContainsAt(p, p, 0);
    ConcatContains(pieces, k, p);
  }

  /** Whatever one written string contains, the whole contains. */
  lemma {:induction false} ConcatContains(pieces: seq<string>, k: nat, v: string)
    requires k < |pieces| && Contains(pieces[k], v)
    ensures Contains(Concat(pieces), v)
    decreases |pieces|
  {
    var init := pieces[..|pieces| - 1];
    var last := pieces[|pieces| - 1];
    if k == |pieces| - 1 {
      assert Concat(pieces) == Concat(init) + last + [];
      ContainsInfix(Concat(init), last, []);
      ContainsTransitive(Concat(pieces), last, v);
    } else {
      ConcatContains(init, k, v);
      assert Concat(pieces) == [] + Concat(init) + last;
      ContainsInfix([], Concat(init), last);
      ContainsTransitive(Concat(pieces), Concat(init), v);
    }
  }

  /** strings.TrimSuffix */
  function TrimSuffix(s: string, suffix: string): (r: string)
    ensures HasSuffix(s, suffix) ==> r + suffix == s
    ensures !HasSuffix(s, suffix) ==> r == s
  {
    if HasSuffix(s, suffix) then s[..|s| - |suffix|] else s
  }

  /** Trimming a suffix undoes appending it. */
  lemma TrimSuffixAppended(s: string, suffix: string)
    ensures HasSuffix(s + suffix, suffix)
    ensures TrimSuffix(s + suffix, suffix) == s
  {
    assert (s + suffix)[|s|..] == suffix;
    assert (s + suffix)[..|s|] == s;
  }

  // ---------------------------------------------------------------------
  // strings.Split and its inverse

  /** Position of the first occurrence of `c` in `s`. */
  function IndexOf(s: string, c: char): (k: nat)
    requires c in s
    ensures k < |s| && s[k] == c && c !in s[..k]
  {
    if s[0] == c then 0
    else
      var k := IndexOf(s[1..], c);
      assert s[..k + 1] == [s[0]] + s[1..][..k];
      1 + k
  }

  /** strings.Split with a one-character separator: the pieces of `s`
      between separators, in order, so there is always at least one. */
  function Split(s: string, sep: char): (parts: seq<string>)
    ensures |parts| >= 1
    ensures forall i :: 0 <= i < |parts| ==> sep !in parts[i]
    decreases |s|
  {
    if sep in s then
      var k := IndexOf(s, sep);
      [s[..k]] + Split(s[k + 1..], sep)
    else
      [s]
  }

  /** strings.Join with a one-character separator. */
  function Join(parts: seq<string>, sep: char): string
    requires |parts| >= 1
  {
    if |parts| == 1 then parts[0] else parts[0] + [sep] + Join(parts[1..], sep)
  }

  /** Joining the pieces of a split gives back the original text. */
  lemma {:induction false} JoinSplit(s: string, sep: char)
    ensures Join(Split(s, sep), sep) == s
    decreases |s|
  {
    if sep in s {
      var k := IndexOf(s, sep);
      var rest := s[k + 1..];
      JoinSplit(rest, sep);
      JoinCons(s[..k], Split(rest, sep), sep);
      assert s == s[..k] + [sep] + rest;
    }
  }

  lemma JoinCons(first: string, tail: seq<string>, sep: char)
    requires |tail| >= 1
    ensures Join([first] + tail, sep) == first + [sep] + Join(tail, sep)
  {
    var parts := [first] + tail;
    assert parts[0] == first && parts[1..] == tail;
  }

  /** A separator at the very end adds an empty last piece. */
  lemma {:induction false} SplitTrailing(s: string, sep: char)
    ensures Split(s + [sep], sep) == Split(s, sep) + [[]]
    decreases |s|
  {
    if sep in s {
      var k := IndexOf(s, sep);
      var a, b := s[..k], s[k + 1..];
      assert s == a + [sep] + b;
      assert s + [sep] == a + [sep] + (b + [sep]);
      SplitAfterPiece(a, sep, b);
      SplitAfterPiece(a, sep, b + [sep]);
      SplitTrailing(b, sep);
    } else {
      assert s + [sep] == s + [sep] + [];
      SplitAfterPiece(s, sep, []);
      assert Split([], sep) == [[]];
    }
  }

  /** The first separator of `a + [c] + b` is the one after `a`. */
  lemma IndexOfAfterPrefix(a: string, c: char, b: string)
    requires c !in a
    ensures c in a + [c] + b
    ensures IndexOf(a + [c] + b, c) == |a|
  {
    var s := a + [c] + b;
    assert s[|a|] == c;
  }

  /** Splitting at a first separator after a separator-free piece. */
  lemma SplitAfterPiece(a: string, sep: char, b: string)
    requires sep !in a
    ensures Split(a + [sep] + b, sep) == [a] + Split(b, sep)
  {
    var s := a + [sep] + b;
    IndexOfAfterPrefix(a, sep, b);
    assert s[..|a|] == a;
    assert s[|a| + 1..] == b;
  }

  /** One more separator-free piece in front of pieces that split back. */
  lemma SplitJoinStep(first: string, tail: seq<string>, sep: char)
    requires |tail| >= 1 && sep !in first
    requires Split(Join(tail, sep), sep) == tail
    ensures Split(Join([first] + tail, sep), sep) == [first] + tail
  {
    JoinCons(first, tail, sep);
    SplitAfterPiece(first, sep, Join(tail, sep));
  }

  /** Splitting separator-free pieces joined by the separator gives back
      exactly those pieces. */
  lemma {:induction false} SplitJoin(parts: seq<string>, sep: char)
    requires |parts| >= 1
    requires forall i :: 0 <= i < |parts| ==> sep !in parts[i]
    ensures Split(Join(parts, sep), sep) == parts
    decreases |parts|
  {
    if |parts| > 1 {
      var tail := parts[1..];
      forall i | 0 <= i < |tail|
        ensures sep !in tail[i]
      {
        assert tail[i] == parts[i + 1];
      }
      SplitJoin(tail, sep);
      assert sep !in parts[0];
      SplitJoinStep(parts[0], tail, sep);
      assert [parts[0]] + tail == parts;
    }
  }

  // ---------------------------------------------------------------------
  // strings.TrimSpace

  /** unicode.IsSpace: the Latin-1 spaces and the other code points of the
      Unicode White_Space property. */
  predicate IsSpace(c: char) {
    || c == '\t' || c == '\n' || c == '\U{000B}' || c == '\U{000C}' || c == '\r' || c == ' '
    || c == '\U{0085}' || c == '\U{00A0}' || c == '\U{1680}'
    || ('\U{2000}' <= c <= '\U{200A}')
    || c == '\U{2028}' || c == '\U{2029}' || c == '\U{202F}' || c == '\U{205F}' || c == '\U{3000}'
  }

  predicate AllSpace(s: string) {
    forall i :: 0 <= i < |s| ==> IsSpace(s[i])
  }

  lemma AllSpaceAppend(a: string, b: string)
    requires AllSpace(a) && AllSpace(b)
    ensures AllSpace(a + b)
  {
    forall i | 0 <= i < |a + b|
      ensures IsSpace((a + b)[i])
    {
      if i >= |a| {
        assert (a + b)[i] == b[i - |a|];
      }
    }
  }

  /** Neither end of `s` is white space. */
  predicate Trimmed(s: string) {
    s == [] || (!IsSpace(s[0]) && !IsSpace(s[|s| - 1]))
  }

  function TrimLeft(s: string): (r: string)
    ensures |r| <= |s| && r == s[|s| - |r|..]
    ensures r == [] || !IsSpace(r[0])
    ensures AllSpace(s[..|s| - |r|])
  {
    if s != [] && IsSpace(s[0]) then
      var r := TrimLeft(s[1..]);
      TrimLeftStep(s, r);
      r
    else
      s
  }

  /** Dropping a leading space keeps TrimLeft's promises. */
  lemma TrimLeftStep(s: string, r: string)
    requires s != [] && IsSpace(s[0])
    requires |r| <= |s| - 1 && r == s[1..][|s| - 1 - |r|..]
    requires AllSpace(s[1..][..|s| - 1 - |r|])
    ensures r == s[|s| - |r|..]
    ensures AllSpace(s[..|s| - |r|])
  {
    var k := |s| - |r|;
    assert s[1..][k - 1..] == s[k..];
    assert s[..k] == [s[0]] + s[1..][..k - 1];
    AllSpaceAppend([s[0]], s[1..][..k - 1]);
  }

  function TrimRight(s: string): (r: string)
    ensures |r| <= |s| && r == s[..|r|]
    ensures r == [] || !IsSpace(r[|r| - 1])
    ensures AllSpace(s[|r|..])
  {
    if s != [] && IsSpace(s[|s| - 1]) then
      var r := TrimRight(s[..|s| - 1]);
      assert s[|r|..] == s[..|s| - 1][|r|..] + [s[|s| - 1]];
      r
    else
      s
  }

  /** strings.TrimSpace: drops leading and trailing white space. */
  function TrimSpace(s: string): (r: string)
    ensures |r| <= |s|
    ensures Trimmed(r)
  {
    TrimRight(TrimLeft(s))
  }

  lemma {:induction false} TrimLeftPadded(a: string, rest: string)
    requires AllSpace(a)
    requires rest == [] || !IsSpace(rest[0])
    ensures TrimLeft(a + rest) == rest
    decreases |a|
  {
    if a != [] {
      assert (a + rest)[1..] == a[1..] + rest;
      TrimLeftPadded(a[1..], rest);
    } else {
      assert a + rest == rest;
    }
  }

  lemma {:induction false} TrimRightPadded(core: string, b: string)
    requires AllSpace(b)
    requires core == [] || !IsSpace(core[|core| - 1])
    ensures TrimRight(core + b) == core
    decreases |b|
  {
    if b != [] {
      assert (core + b)[..|core + b| - 1] == core + b[..|b| - 1];
      TrimRightPadded(core, b[..|b| - 1]);
    } else {
      assert core + b == core;
    }
  }

  /** TrimSpace removes exactly the white-space padding around a trimmed
      core, whatever that padding is. */
  lemma TrimSpacePadded(a: string, core: string, b: string)
    requires AllSpace(a) && AllSpace(b) && Trimmed(core)
    ensures TrimSpace(a + core + b) == core
  {
    if core == [] {
      assert a + core + b == a + b;
      assert AllSpace(a + b);
      TrimLeftPadded(a + b, []);
      assert a + b + [] == a + b;
      TrimRightPadded([], []);
    } else {
      assert a + core + b == a + (core + b);
      TrimLeftPadded(a, core + b);
      TrimRightPadded(core, b);
    }
  }

  /** Trimming twice is trimming once. */
  lemma TrimSpaceIdempotent(s: string)
    ensures TrimSpace(TrimSpace(s)) == TrimSpace(s)
  {
    TrimmedUnchanged(TrimSpace(s));
  }

  /** Text with no white space at either end is left as it is. */
  lemma TrimmedUnchanged(r: string)
    requires Trimmed(r)
    ensures TrimSpace(r) == r
  {
    assert TrimLeft(r) == r;
    assert TrimRight(r) == r;
  }

  // ---------------------------------------------------------------------
  // Go's string order, and sorted key lists (os.ReadDir, json.Marshal)

  /** Go's `<` on strings: byte-wise comparison of the UTF-8 encodings,
      which orders exactly like code-point-wise comparison. */
  predicate Less(a: string, b: string) {
    if a == [] then b != []
    else if b == [] then false
    else if a[0] != b[0] then a[0] < b[0]
    else Less(a[1..], b[1..])
  }

  lemma {:induction false} LessIrreflexive(a: string)
    ensures !Less(a, a)
    decreases |a|
  {
    if a != [] {
      LessIrreflexive(a[1..]);
    }
  }

  lemma {:induction false} LessTransitive(a: string, b: string, c: string)
    requires Less(a, b) && Less(b, c)
    ensures Less(a, c)
    decreases |a|
  {
    if a != [] && b != [] && c != [] && a[0] == b[0] && b[0] == c[0] {
      LessTransitive(a[1..], b[1..], c[1..]);
    }
  }

  lemma {:induction false} LessTotal(a: string, b: string)
    requires a != b
    ensures Less(a, b) || Less(b, a)
    decreases |a|
  {
    if a != [] && b != [] && a[0] == b[0] {
      assert a == [a[0]] + a[1..] && b == [b[0]] + b[1..];
      LessTotal(a[1..], b[1..]);
    }
  }

  lemma LessAsymmetric(a: string, b: string)
    ensures !(Less(a, b) && Less(b, a))
  {
    if Less(a, b) && Less(b, a) {
      LessTransitive(a, b, a);
      LessIrreflexive(a);
    }
  }

  /** Strictly increasing in Go's string order (hence no duplicates). */
  predicate Increasing(s: seq<string>) {
    forall i, j :: 0 <= i < j < |s| ==> Less(s[i], s[j])
  }

  predicate IsLeast(m: string, s: set<string>) {
    m in s && forall y :: y in s && y != m ==> Less(m, y)
  }

  lemma LeastExists(s: set<string>)
    requires s != {}
    ensures exists m :: IsLeast(m, s)
    decreases |s|
  {
    var x :| x in s;
    if s != {x} {
      var t := s - {x};
      LeastExists(t);
      var m :| IsLeast(m, t);
      if Less(x, m) {
        forall y | y in s && y != x
          ensures Less(x, y)
        {
          if y != m {
            LessTransitive(x, m, y);
          }
        }
        assert IsLeast(x, s);
      } else {
        LessTotal(x, m);
        assert IsLeast(m, s);
      }
    } else {
      assert IsLeast(x, s);
    }
  }

  lemma LeastUnique(s: set<string>)
    ensures forall m, n :: IsLeast(m, s) && IsLeast(n, s) ==> m == n
  {
    forall m, n | IsLeast(m, s) && IsLeast(n, s)
      ensures m == n
    {
      if m != n {
        LessAsymmetric(m, n);
      }
    }
  }

  /** The elements of `s` in increasing order: the order in which os.ReadDir
      returns directory entries and json.Marshal writes map keys. */
  function SortedKeys(s: set<string>): (r: seq<string>)
    ensures Increasing(r)
    ensures forall x :: x in r <==> x in s
    ensures |r| == |s|
    decreases |s|
  {
    if s == {} then []
    else
      LeastExists(s);
      LeastUnique(s);
      var m :| IsLeast(m, s);
      var rest := SortedKeys(s - {m});
      assert forall j :: 0 <= j < |rest| ==> rest[j] in s - {m};
      [m] + rest
  }

  /** An increasing sequence is determined by its elements. */
  lemma {:induction false} IncreasingUnique(a: seq<string>, b: seq<string>)
    requires Increasing(a) && Increasing(b)
    requires forall x :: x in a <==> x in b
    ensures a == b
    decreases |a|
  {
    if a != [] {
      assert a[0] in b;
    }
    if b != [] {
      assert b[0] in a;
    }
    if a != [] && b != [] {
      if a[0] != b[0] {
        assert b[0] in a && a[0] in b;
        var i :| 0 <= i < |a| && a[i] == b[0];
        var j :| 0 <= j < |b| && b[j] == a[0];
        assert i != 0 && j != 0;
        LessAsymmetric(a[0], b[0]);
        assert false;
      }
      forall x
        ensures x in a[1..] <==> x in b[1..]
      {
        if x in a[1..] {
          var i :| 0 <= i < |a| - 1 && a[1..][i] == x;
          assert Less(a[0], a[i + 1]);
          LessIrreflexive(x);
          assert x in b;
          var j :| 0 <= j < |b| && b[j] == x;
          assert j != 0;
          assert b[1..][j - 1] == x;
        }
        if x in b[1..] {
          var i :| 0 <= i < |b| - 1 && b[1..][i] == x;
          assert Less(b[0], b[i + 1]);
          LessIrreflexive(x);
          assert x in a;
          var j :| 0 <= j < |a| && a[j] == x;
          assert j != 0;
          assert a[1..][j - 1] == x;
        }
      }
      IncreasingUnique(a[1..], b[1..]);
      assert a == [a[0]] + a[1..] && b == [b[0]] + b[1..];
    }
  }

  // ---------------------------------------------------------------------
  // strconv.Itoa on non-negative numbers

  predicate IsDigit(c: char) {
    '0' <= c <= '9'
  }

  function DigitChar(d: nat): (c: char)
    requires d < 10
    ensures IsDigit(c) && c as int - '0' as int == d
  {
    (d + '0' as int) as char
  }

  /** strconv.Itoa / FormatInt in base 10 for a non-negative number. */
  function NatToString(n: nat): (s: string)
    ensures |s| >= 1
    ensures forall i :: 0 <= i < |s| ==> IsDigit(s[i])
  {
    if n < 10 then [DigitChar(n)] else NatToString(n / 10) + [DigitChar(n % 10)]
  }

  /** strconv.Atoi on a string of decimal digits. */
  function ParseNat(s: string): nat
    requires forall i :: 0 <= i < |s| ==> IsDigit(s[i])
  {
    if s == [] then 0
    else
      var c := s[|s| - 1];
      assert IsDigit(c);
      ParseNat(s[..|s| - 1]) * 10 + (c as int - '0' as int)
  }

  /** The decimal rendering of a number reads back as that number. */
  lemma {:induction false} ParseNatToString(n: nat)
    ensures ParseNat(NatToString(n)) == n
  {
    if n >= 10 {
      var s := NatToString(n);
      assert s[..|s| - 1] == NatToString(n / 10);
      ParseNatToString(n / 10);
    }
  }
}
