/** replaceMacWord: every placeholder in the endpoint URL is replaced by the device
    MAC address. A counting pass sizes the buffer, a filling pass writes it. */
module MacSubstitution {
  import opened Common

  predicate OccursAt(s: string, w: string, i: int) {
    0 <= i && i + |w| <= |s| && s[i..i + |w|] == w
  }

  ghost predicate Occurs(s: string, w: string) {
    exists i :: OccursAt(s, w, i)
  }

  // -------------------------------------------------- the reference definition

  /** The leftmost occurrence of w at or after p, or |s| when there is none. */
  function FirstAt(s: string, w: string, p: nat): (i: nat)
    requires w != [] && p <= |s|
    ensures p <= i <= |s|
    ensures i < |s| ==> OccursAt(s, w, i)
    ensures forall k :: p <= k < i ==> !OccursAt(s, w, k)
    decreases |s| - p
  {
    if p == |s| || OccursAt(s, w, p) then p else FirstAt(s, w, p + 1)
  }

  /** s from p on, with every leftmost non-overlapping w replaced by d. */
  function ReplacedFrom(s: string, w: string, d: string, p: nat): string
    requires w != [] && p <= |s|
    decreases |s| - p
  {
    var i := FirstAt(s, w, p);
    if i == |s| then s[p..] else (s[p..i] + d) + ReplacedFrom(s, w, d, i + |w|)
  }

  /** The number of those occurrences. */
  function Matches(s: string, w: string, p: nat): nat
    requires w != [] && p <= |s|
    decreases |s| - p
  {
    var i := FirstAt(s, w, p);
    if i == |s| then 0 else 1 + Matches(s, w, i + |w|)
  }

  function Replaced(s: string, w: string, d: string): string
    requires w != []
  {
    ReplacedFrom(s, w, d, 0)
  }

  /** Putting w itself back changes nothing: only occurrences are touched. */
  lemma {:induction false} ReplacingBySelf(s: string, w: string, p: nat)
    requires w != [] && p <= |s|
    ensures ReplacedFrom(s, w, w, p) == s[p..]
    decreases |s| - p
  {
    var i := FirstAt(s, w, p);
    if i < |s| {
      ReplacingBySelf(s, w, i + |w|);
      AroundOccurrence(s, w, p, i);
    }
  }

  lemma AroundOccurrence(s: string, w: string, p: nat, i: nat)
    requires p <= i && OccursAt(s, w, i)
    ensures s[p..] == (s[p..i] + w) + s[i + |w|..]
  {
    assert s[p..] == s[p..i] + s[i..i + |w|] + s[i + |w|..];
  }

  /** t ends with s, from place m on. */
  predicate EndsWith(t: string, m: nat, s: string) {
    |t| == m + |s| && t[m..] == s
  }

  lemma OccursBehind(t: string, m: nat, s: string, w: string, i: nat)
    requires EndsWith(t, m, s)
    ensures OccursAt(t, w, m + i) <==> OccursAt(s, w, i)
  {
    if i + |w| <= |s| {
      SliceBehind(t, m, s, i, i + |w|);
    }
  }

  lemma SliceBehind(t: string, m: nat, s: string, p: nat, i: nat)
    requires EndsWith(t, m, s) && p <= i <= |s|
    ensures m + |s| == |t| && t[m + p..m + i] == s[p..i]
  {
    assert t[m + p..m + i] == t[m..][p..i];
  }

  lemma {:induction false} FirstBehind(t: string, m: nat, s: string, w: string, p: nat)
    requires EndsWith(t, m, s) && w != [] && p <= |s|
    ensures FirstAt(t, w, m + p) == m + FirstAt(s, w, p)
    decreases |s| - p
  {
    OccursBehind(t, m, s, w, p);
    if p < |s| && !OccursAt(s, w, p) {
      FirstBehind(t, m, s, w, p + 1);
    }
  }

  /** What stands before the place reached does not matter. */
  lemma {:induction false} ReplacedBehind(t: string, m: nat, s: string, w: string, d: string, p: nat)
    requires EndsWith(t, m, s) && w != [] && p <= |s|
    ensures m + p <= |t| && ReplacedFrom(t, w, d, m + p) == ReplacedFrom(s, w, d, p)
    decreases |s| - p
  {
    hide FirstAt, OccursAt, ReplacedFrom, EndsWith;
    var i := FirstAt(s, w, p);
    FirstBehind(t, m, s, w, p);
    SliceBehind(t, m, s, p, i);
    FirstFits(s, w, p);
    if i < |s| {
      var q, rest := i + |w|, ReplacedFrom(s, w, d, i + |w|);
      ReplacedBehind(t, m, s, w, d, q);
      Unfolds(s, w, d, p, i, q, s[p..i], rest);
      Unfolds(t, w, d, m + p, m + i, m + q, s[p..i], rest);
    } else {
      UnfoldsAtEnd(s, w, d, p);
      UnfoldsAtEnd(t, w, d, m + p);
      assert t[m + p..] == t[m + p..m + i] && s[p..] == s[p..i];
    }
  }

  lemma FirstFits(s: string, w: string, p: nat)
    requires w != [] && p <= |s|
    ensures p <= FirstAt(s, w, p) <= |s|
    ensures FirstAt(s, w, p) < |s| ==> FirstAt(s, w, p) + |w| <= |s|
  {
  }

  lemma Unfolds(s: string, w: string, d: string, p: nat, i: nat, q: nat, front: string, rest: string)
    requires w != [] && p <= i && q == i + |w| <= |s| && FirstAt(s, w, p) == i
    requires s[p..i] == front && ReplacedFrom(s, w, d, q) == rest
    ensures ReplacedFrom(s, w, d, p) == (front + d) + rest
  {
    hide FirstAt, OccursAt;
  }

  lemma UnfoldsAtEnd(s: string, w: string, d: string, p: nat)
    requires w != [] && p <= |s| && FirstAt(s, w, p) == |s|
    ensures ReplacedFrom(s, w, d, p) == s[p..]
  {
    hide FirstAt, OccursAt;
  }

  /** The laws of replacement: up to the first occurrence the text is copied, the
      occurrence becomes d, and the rest is replaced in the same way; a text without
      an occurrence stays as it is. */
  lemma ReplacesInPieces(front: string, rest: string, w: string, d: string)
    requires w != [] && forall k :: 0 <= k < |front| ==> !OccursAt(front + w + rest, w, k)
    ensures Replaced(front + w + rest, w, d) == front + d + Replaced(rest, w, d)
    ensures Matches(front + w + rest, w, 0) == 1 + Matches(front + w + rest, w, |front| + |w|)
  {
    var s := front + w + rest;
    assert s[|front|..|front| + |w|] == w;
    FirstIs(s, w, 0, |front|);
    assert s == (front + w) + rest && s[0..|front|] == front;
    ReplacedBehind(s, |front| + |w|, rest, w, d, 0);
  }

  lemma {:induction false} FirstIs(s: string, w: string, p: nat, i: nat)
    requires w != [] && p <= i && OccursAt(s, w, i) && forall k :: p <= k < i ==> !OccursAt(s, w, k)
    ensures FirstAt(s, w, p) == i
    decreases i - p
  {
    if p < i {
      FirstIs(s, w, p + 1, i);
    }
  }

  lemma ReplacesNothing(s: string, w: string, d: string)
    requires w != [] && !Occurs(s, w)
    ensures Replaced(s, w, d) == s && Matches(s, w, 0) == 0
  {
    assert FirstAt(s, w, 0) == |s|;
    assert s[0..] == s;
  }

  // --------------------------------------------------------- the scanning view

  /** The number of replacements a scan standing at p still finds. */
  function Count(s: string, w: string, p: nat): nat
    requires w != []
    decreases |s| - p
  {
    if p >= |s| then 0
    else if OccursAt(s, w, p) then 1 + Count(s, w, p + |w|)
    else Count(s, w, p + 1)
  }

  /** What a scan standing at p still writes. */
  function Rest(s: string, w: string, d: string, p: nat): string
    requires w != []
    decreases |s| - p
  {
    if p >= |s| then []
    else if OccursAt(s, w, p) then d + Rest(s, w, d, p + |w|)
    else [s[p]] + Rest(s, w, d, p + 1)
  }

  /** The character by character scan makes the replacements of the reference. */
  lemma {:induction false} ScanIsReplacement(s: string, w: string, d: string, p: nat)
    requires w != [] && p <= |s|
    ensures Rest(s, w, d, p) == ReplacedFrom(s, w, d, p)
    ensures Count(s, w, p) == Matches(s, w, p)
    decreases |s| - p
  {
    if p == |s| {
      UnfoldsAtEnd(s, w, d, p);
    } else if OccursAt(s, w, p) {
      ScanIsReplacement(s, w, d, p + |w|);
      ScanHere(s, w, d, p);
    } else {
      ScanIsReplacement(s, w, d, p + 1);
      FirstAtSkips(s, w, d, p);
    }
    hide ReplacedFrom, FirstAt, OccursAt;
  }

  lemma ScanHere(s: string, w: string, d: string, p: nat)
    requires w != [] && p < |s| && OccursAt(s, w, p)
    ensures Rest(s, w, d, p) == d + Rest(s, w, d, p + |w|)
    ensures ReplacedFrom(s, w, d, p) == d + ReplacedFrom(s, w, d, p + |w|)
    ensures Count(s, w, p) == 1 + Count(s, w, p + |w|) && Matches(s, w, p) == 1 + Matches(s, w, p + |w|)
  {
    assert FirstAt(s, w, p) == p;
    Unfolds(s, w, d, p, p, p + |w|, [], ReplacedFrom(s, w, d, p + |w|));
    hide ReplacedFrom;
    assert [] + d == d;
  }

  lemma FirstAtSkips(s: string, w: string, d: string, p: nat)
    requires w != [] && p < |s| && !OccursAt(s, w, p)
    ensures ReplacedFrom(s, w, d, p) == [s[p]] + ReplacedFrom(s, w, d, p + 1)
    ensures Matches(s, w, p) == Matches(s, w, p + 1)
  {
    var i := FirstAt(s, w, p + 1);
    assert FirstAt(s, w, p) == i;
    OneSooner(s, p, i);
    if i < |s| {
      var front, q := s[p + 1..i], i + |w|;
      assert q <= |s|;
      hide ReplacedFrom, FirstAt, OccursAt;
      var rest := ReplacedFrom(s, w, d, q);
      Unfolds(s, w, d, p, i, q, [s[p]] + front, rest);
      Unfolds(s, w, d, p + 1, i, q, front, rest);
      Associative([s[p]], front, d);
      Associative([s[p]], front + d, rest);
    } else {
      hide ReplacedFrom, FirstAt, OccursAt;
      UnfoldsAtEnd(s, w, d, p);
      UnfoldsAtEnd(s, w, d, p + 1);
    }
  }

  lemma OneSooner(s: string, p: nat, i: nat)
    requires p < i <= |s|
    ensures s[p..i] == [s[p]] + s[p + 1..i]
    ensures s[p..] == [s[p]] + s[p + 1..]
  {
  }

  lemma OneMore(n: int, m: int)
    ensures (1 + n) * m == m + n * m
  {
  }

  lemma {:induction false} RestLength(s: string, w: string, d: string, p: nat)
    requires w != [] && p <= |s|
    ensures |Rest(s, w, d, p)| == |s| - p + Count(s, w, p) * (|d| - |w|)
    decreases |s| - p
  {
    if p == |s| {
    } else if OccursAt(s, w, p) {
      RestLength(s, w, d, p + |w|);
      OneMore(Count(s, w, p + |w|), |d| - |w|);
    } else {
      RestLength(s, w, d, p + 1);
    }
  }

  // ----------------------------------------------------------------- the code

  datatype ErrorCode = EOK | ESNOSPC

  /** strcpy_s(&dest[at], dmax, src): copies src and its terminator when they fit
      in dmax bytes, and otherwise only clears the first byte. */
  method StrcpyS(dest: array<char>, at: nat, dmax: nat, src: string) returns (rc: ErrorCode)
    requires at + dmax <= dest.Length && dmax > 0
    modifies dest
    ensures rc == EOK <==> |src| < dmax
    ensures rc == EOK ==> dest[..at + |src|] == old(dest[..at]) + src
    ensures rc == EOK ==> dest[at + |src|..] == ['\0'] + old(dest[at + |src| + 1..])
    ensures rc != EOK ==> dest[..] == old(dest[..])[at := '\0']
  {
    if |src| >= dmax {
      dest[at] := '\0';
      return ESNOSPC;
    }
    forall k | 0 <= k < |src| {
      dest[at + k] := src[k];
    }
    dest[at + |src|] := '\0';
    rc := EOK;
  }

  /** The counting pass: the length of s and the number of matches in it. */
  method CountMatches(s: string, macW: string) returns (i: nat, cnt: nat)
    requires macW != []
    ensures i == |s| && cnt == Matches(s, macW, 0)
  {
    ScanIsReplacement(s, macW, [], 0);
    i, cnt := 0, 0;
    while i < |s|
      invariant i <= |s|
      invariant cnt + Count(s, macW, i) == Count(s, macW, 0)
    {
      if OccursAt(s, macW, i) {
        cnt := cnt + 1;
        i := i + |macW| - 1;
      }
      i := i + 1;
    }
  }

  lemma RestUnfolds(s: string, w: string, d: string, p: nat)
    requires w != [] && p < |s|
    ensures OccursAt(s, w, p) ==> p + |w| <= |s| && Rest(s, w, d, p) == d + Rest(s, w, d, p + |w|)
    ensures !OccursAt(s, w, p) ==> Rest(s, w, d, p) == [s[p]] + Rest(s, w, d, p + 1)
  {
  }

  lemma RestAtEnd(s: string, w: string, d: string)
    requires w != []
    ensures Rest(s, w, d, |s|) == []
  {
  }

  /** The filling pass, into a buffer with room for the text and its terminator. */
  method Fill(result: array<char>, s: string, macW: string, deviceMACW: string) returns (i: nat)
    requires macW != []
    requires result.Length == |Rest(s, macW, deviceMACW, 0)| + 1
    modifies result
    ensures i == result.Length - 1
    ensures result[..i] == Rest(s, macW, deviceMACW, 0)
  {
    hide Rest, OccursAt;
    ghost var whole := Rest(s, macW, deviceMACW, 0);
    var p := 0;
    i := 0;
    while p < |s|
      invariant p <= |s| && i < result.Length
      invariant result[..i] + Rest(s, macW, deviceMACW, p) == whole
    {
      ghost var done := result[..i];
      assert i + |Rest(s, macW, deviceMACW, p)| == |whole|;
      RestUnfolds(s, macW, deviceMACW, p);
      if OccursAt(s, macW, p) {
        var rc := StrcpyS(result, i, result.Length - i, deviceMACW);
        assert rc == EOK;
        Associative(done, deviceMACW, Rest(s, macW, deviceMACW, p + |macW|));
        i := i + |deviceMACW|;
        p := p + |macW|;
      } else {
        result[i] := s[p];
        assert result[..i + 1] == done + [s[p]];
        Associative(done, [s[p]], Rest(s, macW, deviceMACW, p + 1));
        i := i + 1;
        p := p + 1;
      }
    }
    RestAtEnd(s, macW, deviceMACW);
  }

  /** replaceMacWord. The buffer is exactly as long as the result and its
      terminator; Dafny checks that every write stays inside it. */
  method ReplaceMacWord(s: string, macW: string, deviceMACW: string) returns (result: array<char>)
    requires macW != []
    ensures fresh(result)
    ensures result[..] == Replaced(s, macW, deviceMACW) + ['\0']
  {
    var len, cnt := CountMatches(s, macW);
    ScanIsReplacement(s, macW, deviceMACW, 0);
    RestLength(s, macW, deviceMACW, 0);
    result := new char[len + cnt * (|deviceMACW| - |macW|) + 1];
    var i := Fill(result, s, macW, deviceMACW);
    result[i] := '\0';
  }

  // -------------------------------------------------- nothing of w is left over

  /** d cannot take part in an occurrence of w that spans it. */
  predicate Separates(d: string, w: string)
    requires w != []
  {
    w[0] !in d && w[|w| - 1] !in d && |w| <= |d| + 1
  }

  /** An occurrence in p + d + j lies inside p or inside j. */
  lemma NoStraddling(p: string, d: string, j: string, w: string, k: int)
    requires w != [] && Separates(d, w)
    requires OccursAt(p + d + j, w, k)
    ensures OccursAt(p, w, k) || OccursAt(j, w, k - |p| - |d|)
  {
    var t := p + d + j;
    var e := k + |w| - 1;
    assert t[k..k + |w|][0] == t[k] && t[k..k + |w|][|w| - 1] == t[e];
    if e < |p| {
      assert p[k..k + |w|] == t[k..k + |w|];
    } else if k >= |p| + |d| {
      var q := k - |p| - |d|;
      assert j[q..q + |w|] == t[k..k + |w|];
    } else if k >= |p| {
      assert false;
    } else if e < |p| + |d| {
      assert false;
    }
  }

  lemma FirstPieceIsClean(s: string, w: string, p: nat)
    requires w != [] && p <= |s|
    ensures !Occurs(s[p..FirstAt(s, w, p)], w)
  {
    var i := FirstAt(s, w, p);
    forall k | OccursAt(s[p..i], w, k) ensures false {
      assert s[p..i][k..k + |w|] == s[p + k..p + k + |w|];
      assert OccursAt(s, w, p + k);
    }
  }

  lemma {:induction false} ReplacedIsClean(s: string, w: string, d: string, p: nat)
    requires w != [] && p <= |s| && Separates(d, w)
    ensures !Occurs(ReplacedFrom(s, w, d, p), w)
    decreases |s| - p
  {
    var i := FirstAt(s, w, p);
    FirstPieceIsClean(s, w, p);
    if i < |s| {
      ReplacedIsClean(s, w, d, i + |w|);
      var j := ReplacedFrom(s, w, d, i + |w|);
      forall k | OccursAt(s[p..i] + d + j, w, k) ensures false {
        NoStraddling(s[p..i], d, j, w, k);
      }
    } else {
      assert s[p..i] == s[p..];
    }
  }

  /** No placeholder survives, not even one put together by a replacement. */
  lemma NothingLeft(s: string, w: string, d: string)
    requires w != [] && Separates(d, w)
    ensures !Occurs(Replaced(s, w, d), w)
    ensures Replaced(Replaced(s, w, d), w, d) == Replaced(s, w, d)
  {
    ReplacedIsClean(s, w, d, 0);
    var r := Replaced(s, w, d);
    assert FirstAt(r, w, 0) == |r|;
    assert r[0..] == r;
  }

  /** The length bound in Separates cannot be relaxed: a replacement two
      characters shorter than w can put w together again. */
  lemma BoundIsTight(a: char, d: string, b: char)
    requires a != b && a !in d && b !in d
    ensures var w := [a] + d + [b];
            Replaced([a] + w + [b], w, d) == w
  {
    var w := [a] + d + [b];
    var s := [a] + w + [b];
    var end := 1 + |w|;
    assert s[1..end] == w;
    assert !OccursAt(s, w, 0) by {
      assert s[1] == a && w[1] != a;
    }
    assert FirstAt(s, w, 0) == FirstAt(s, w, 1) == 1;
    assert FirstAt(s, w, end) == FirstAt(s, w, end + 1) == |s|;
    assert s[0..1] == [a] && s[end..] == [b];
    assert ReplacedFrom(s, w, d, end) == [b];
  }

  /** The deployed case: "{mac}" against a MAC address without braces. */
  lemma PlaceholderIsGone(s: string, mac: string)
    requires |mac| >= 4 && '{' !in mac && '}' !in mac
    ensures !Occurs(Replaced(s, "{mac}", mac), "{mac}")
  {
    NothingLeft(s, "{mac}", mac);
  }
}
