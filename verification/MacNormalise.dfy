/** The two routines that bring a MAC address to lower case without colons: the
    in-place compaction at the end of getKeyValue, and macToLower with its tokens. */
module MacNormalise {
  import opened CText
  import MacSubstitution

  // ------------------------------------------------------------ what they compute

  /** The characters of s[p..q] that are not colons. */
  function Kept(s: seq<char>, p: nat, q: nat): (r: string)
    requires p <= q <= |s|
    ensures ':' !in r
    ensures |r| <= q - p
    decreases q
  {
    if p == q then []
    else Kept(s, p, q - 1) + if s[q - 1] == ':' then [] else [s[q - 1]]
  }

  function NoColon(s: string): string {
    Kept(s, 0, |s|)
  }

  function Normal(mac: string): string {
    Lower(NoColon(mac))
  }

  lemma {:induction false} KeptSplits(s: seq<char>, p: nat, m: nat, q: nat)
    requires p <= m <= q <= |s|
    ensures Kept(s, p, q) == Kept(s, p, m) + Kept(s, m, q)
    decreases q
  {
    if m < q {
      KeptSplits(s, p, m, q - 1);
    }
  }

  lemma {:induction false} KeptOf(s: seq<char>, p: nat, q: nat)
    requires p <= q <= |s|
    ensures (forall k :: p <= k < q ==> s[k] == ':') ==> Kept(s, p, q) == []
    ensures (forall k :: p <= k < q ==> s[k] != ':') ==> Kept(s, p, q) == s[p..q]
    decreases q
  {
    if p < q {
      KeptOf(s, p, q - 1);
      assert s[p..q] == s[p..q - 1] + [s[q - 1]];
    }
  }

  lemma {:induction false} KeptChars(s: seq<char>, p: nat, q: nat, c: char)
    requires p <= q <= |s| && c != ':'
    ensures c in Kept(s, p, q) <==> c in s[p..q]
    decreases q
  {
    if p < q {
      KeptChars(s, p, q - 1, c);
      assert s[p..q] == s[p..q - 1] + [s[q - 1]];
    }
  }

  lemma {:induction false} KeptPrefix(s: seq<char>, t: seq<char>, q: nat)
    requires q <= |s| && q <= |t| && s[..q] == t[..q]
    ensures Kept(s, 0, q) == Kept(t, 0, q)
  {
    if q > 0 {
      assert s[..q][..q - 1] == s[..q - 1] && t[..q][..q - 1] == t[..q - 1];
      assert s[q - 1] == s[..q][q - 1] == t[..q][q - 1] == t[q - 1];
      KeptPrefix(s, t, q - 1);
    }
  }

  lemma {:induction false} NoColonInPieces(a: string, b: string)
    ensures NoColon(a + b) == NoColon(a) + NoColon(b)
    decreases b
  {
    var s := a + b;
    if b == [] {
      assert s == a;
    } else {
      var front, c := b[..|b| - 1], b[|b| - 1];
      assert s[..|s| - 1] == a + front && s[|s| - 1] == c;
      KeptPrefix(s, a + front, |s| - 1);
      KeptPrefix(b, front, |b| - 1);
      NoColonInPieces(a, front);
    }
  }

  /** The normal form, character by character: colons go, and the others are lowered
      where they stand. */
  lemma NormalInPieces(a: string, b: string, c: char)
    ensures Normal(a + b) == Normal(a) + Normal(b)
    ensures Normal([c]) == if c == ':' then "" else [ToLower(c)]
    ensures Normal("") == ""
  {
    hide Lower, NoColon;
    NoColonInPieces(a, b);
    LowerInPieces(NoColon(a), NoColon(b));
    NoColonOne(c);
    LowerOne(c);
  }

  lemma NoColonOne(c: char)
    ensures NoColon([c]) == if c == ':' then [] else [c]
    ensures NoColon("") == ""
  {
    assert Kept([c], 0, 0) == [];
  }

  lemma LowerOne(c: char)
    ensures Lower([c]) == [ToLower(c)] && Lower("") == ""
  {
  }

  /** A second normalisation changes nothing. */
  lemma NormalIdempotent(mac: string)
    ensures Normal(Normal(mac)) == Normal(mac)
  {
    var r := Normal(mac);
    forall k | 0 <= k < |r| ensures r[k] != ':' {
      assert NoColon(mac)[k] != ':';
    }
    KeptOf(r, 0, |r|);
    assert forall k :: 0 <= k < |r| ==> ToLower(r[k]) == r[k];
  }

  /** The endpoint URL built with a normalised address has no placeholder left. */
  lemma EndpointIsComplete(url: string, mac: string)
    requires |NoColon(mac)| >= 4 && '{' !in mac && '}' !in mac
    ensures !MacSubstitution.Occurs(MacSubstitution.Replaced(url, "{mac}", Normal(mac)), "{mac}")
  {
    var r := Normal(mac);
    forall c | c == '{' || c == '}' ensures c !in r {
      KeptChars(mac, 0, |mac|, c);
      assert forall k :: 0 <= k < |r| && r[k] == c ==> NoColon(mac)[k] == c;
    }
    MacSubstitution.PlaceholderIsGone(url, r);
  }

  // --------------------------------------------------------- C strings in buffers

  /** The buffer holds the C string t: its characters and then the terminator. */
  ghost predicate IsText(a: array<char>, t: string)
    reads a
  {
    && |t| < a.Length && a[|t|] == '\0'
    && forall k :: 0 <= k < |t| ==> a[k] == t[k] && t[k] != '\0'
  }

  /** strlen of the string that ends at byte n. */
  method Strlen(a: array<char>, ghost n: nat) returns (len: nat)
    requires n < a.Length && a[n] == '\0'
    requires forall k :: 0 <= k < n ==> a[k] != '\0'
    ensures len == n
  {
    len := 0;
    while a[len] != '\0'
      invariant len <= n
      decreases n - len
    {
      len := len + 1;
    }
  }

  /** A buffer holds one string only. */
  lemma TextUnique(a: array<char>, t: string, u: string)
    requires IsText(a, t) && IsText(a, u)
    ensures t == u
  {
    assert |t| == |u|;
  }

  // ------------------------------------------- the compaction of getKeyValue

  /** The in-place removal: i runs over the string, j over the characters kept.
      The bytes behind the new terminator stay as they were. */
  method RemoveColons(value: array<char>, ghost t: string)
    requires IsText(value, t)
    modifies value
    ensures IsText(value, NoColon(t))
    ensures forall k :: |NoColon(t)| < k < value.Length ==> value[k] == old(value[k])
  {
    ghost var kept: string := [];
    var i, j := 0, 0;
    var len := Strlen(value, |t|);
    while i < len
      invariant len == |t| && 0 <= j <= i <= |t|
      invariant kept == Kept(t, 0, i) && j == |kept|
      invariant forall k :: 0 <= k < j ==> value[k] == kept[k] && kept[k] != '\0'
      invariant forall k :: j <= k < value.Length ==> value[k] == old(value[k])
    {
      if value[i] != ':' {
        value[j] := value[i];
        kept := kept + [t[i]];
        j := j + 1;
      }
      i := i + 1;
      // strlen(value) again: no byte before the terminator became '\0'
      len := Strlen(value, |t|);
    }
    value[j] := '\0';
  }

  /** The loop that lowers ASCII letters; it also visits the terminator. */
  method LowerInPlace(value: array<char>, ghost t: string)
    requires IsText(value, t)
    modifies value
    ensures IsText(value, Lower(t))
    ensures forall k :: |t| < k < value.Length ==> value[k] == old(value[k])
  {
    var i := 0;
    var len := Strlen(value, |t|);
    while i <= len
      invariant len == |t| && 0 <= i <= |t| + 1
      invariant forall k :: 0 <= k < |t| ==> value[k] == if k < i then ToLower(t[k]) else t[k]
      invariant forall k :: |t| <= k < value.Length ==> value[k] == old(value[k])
    {
      if 65 <= value[i] as int <= 90 {
        value[i] := (value[i] as int + 32) as char;
      }
      i := i + 1;
      len := Strlen(value, |t|);
    }
  }

  /** The end of getKeyValue: what it leaves in the caller's buffer. */
  method NormaliseKeyValue(value: array<char>, ghost t: string)
    requires IsText(value, t)
    modifies value
    ensures IsText(value, Normal(t))
    ensures forall k :: |Normal(t)| < k < value.Length ==> value[k] == old(value[k])
  {
    RemoveColons(value, t);
    LowerInPlace(value, NoColon(t));
  }

  // -------------------------------------------------- the tokens of macToLower

  datatype Token = NoToken | Found(text: string)

  /** What the buffer holds from p on while strtok works on the string s. */
  ghost predicate Holds(tmp: array<char>, s: string, p: nat)
    reads tmp
  {
    && p <= |s| < tmp.Length
    && forall k :: p <= k < tmp.Length ==> tmp[k] == if k < |s| then s[k] else '\0'
  }

  /** The string that starts at byte p of the buffer is the text. */
  ghost predicate StandsAt(tmp: array<char>, text: string, p: nat)
    reads tmp
  {
    && p + |text| < tmp.Length && tmp[p + |text|] == '\0'
    && forall k :: 0 <= k < |text| ==> tmp[p + k] == text[k] && text[k] != '\0'
  }

  lemma TokenSlice(s: string, from: nat, a: nat, b: nat)
    requires from <= a <= b <= |s|
    requires forall k :: from <= k < a ==> s[k] == ':'
    requires forall k :: a <= k < b ==> s[k] != ':'
    ensures Kept(s, from, b) == s[a..b]
  {
    KeptOf(s, from, a);
    KeptOf(s, a, b);
    KeptSplits(s, from, a, b);
  }

  lemma KeptToNext(s: string, from: nat, b: nat)
    requires from <= b <= |s|
    ensures b < |s| && s[b] == ':' ==> Kept(s, from, b + 1) == Kept(s, from, b)
  {
  }

  /** strtok(…, ":") resuming at `from`: skips colons, takes the characters up to
      the next colon or the end, and cuts the token off with a '\0', so that it is
      a string of its own in the buffer. */
  method Strtok(tmp: array<char>, ghost s: string, from: nat) returns (token: Token, at: nat, next: nat)
    requires '\0' !in s && Holds(tmp, s, from)
    modifies tmp
    ensures from <= next && Holds(tmp, s, next)
    ensures token.Found? ==> StandsAt(tmp, token.text, at)
    ensures token == NoToken ==> next == |s| && Kept(s, from, next) == []
    ensures token.Found? ==> next > from && Kept(s, from, next) == token.text
  {
    hide Kept, StandsAt;
    var a := from;
    while tmp[a] == ':'
      invariant from <= a <= |s|
      invariant forall k :: from <= k < a ==> s[k] == ':'
      decreases |s| - a
    {
      a := a + 1;
    }
    var b := a;
    while tmp[b] != ':' && tmp[b] != '\0'
      invariant a <= b <= |s|
      invariant forall k :: a <= k < b ==> s[k] != ':'
      decreases |s| - b
    {
      b := b + 1;
    }
    TokenSlice(s, from, a, b);
    KeptToNext(s, from, b);
    if a == b {
      return NoToken, a, a;
    }
    at := a;
    next := CutOff(tmp, s, a, b);
    assert tmp[a..b] == s[a..b];
    token := Found(tmp[a..b]);
  }

  /** The end of a token: a colon there becomes its terminator. */
  method CutOff(tmp: array<char>, ghost s: string, a: nat, b: nat) returns (next: nat)
    requires '\0' !in s && a <= b <= |s| && Holds(tmp, s, a)
    requires b < |s| ==> s[b] == ':'
    modifies tmp
    ensures next == (if b < |s| then b + 1 else b) && Holds(tmp, s, next)
    ensures StandsAt(tmp, s[a..b], a)
  {
    next := b;
    if tmp[b] == ':' {
      tmp[b] := '\0';
      next := b + 1;
    }
  }

  /** strncat(dest, text, n) */
  method Strncat(dest: array<char>, ghost t: string, text: string, n: nat)
    requires IsText(dest, t) && '\0' !in text
    requires |t| + |text| < dest.Length && |text| <= n
    modifies dest
    ensures IsText(dest, t + text)
  {
    var at := Strlen(dest, |t|);
    forall k | 0 <= k < |text| {
      dest[at + k] := text[k];
    }
    dest[at + |text|] := '\0';
  }

  /** One turn of the loop: the token is appended and the last byte cleared. */
  method Append(macConverted: array<char>, ghost t: string, text: string)
    requires IsText(macConverted, t) && '\0' !in text
    requires macConverted.Length == 32 && |t| + |text| < 32
    modifies macConverted
    ensures IsText(macConverted, t + text)
  {
    Strncat(macConverted, t, text, 31);
    macConverted[31] := '\0';
  }

  /** The tokens joined: the string without its colons. */
  method JoinTokens(macValue: string, tmp: array<char>, macConverted: array<char>)
    requires '\0' !in macValue && |macValue| < 32
    requires Holds(tmp, macValue, 0)
    requires tmp != macConverted && macConverted.Length == 32 && IsText(macConverted, [])
    modifies tmp, macConverted
    ensures IsText(macConverted, NoColon(macValue))
  {
    hide StandsAt, Kept;
    KeptOf(macValue, 0, 0);
    var i, seen := 0, 0;
    var token, at, next := Strtok(tmp, macValue, 0);
    while token.Found?
      invariant 0 <= i <= seen <= next <= |macValue|
      invariant token.Found? ==> seen < next && Kept(macValue, seen, next) == token.text
      invariant token == NoToken ==> next == |macValue| && Kept(macValue, seen, next) == []
      invariant Holds(tmp, macValue, next)
      invariant IsText(macConverted, Kept(macValue, 0, seen))
      decreases |macValue| - seen
    {
      KeptSplits(macValue, 0, seen, next);
      KeptChars(macValue, seen, next, '\0');
      Append(macConverted, Kept(macValue, 0, seen), token.text);
      i := i + 1;
      assert i < 32;  // the slot token[i] exists
      seen := next;
      token, at, next := Strtok(tmp, macValue, next);
    }
    KeptSplits(macValue, 0, seen, next);
  }

  /** macToLower, for the addresses its 32-byte buffers can take. */
  method MacToLower(macValue: string, macConverted: array<char>)
    requires '\0' !in macValue && |macValue| < 32
    requires macConverted.Length == 32 && macConverted[0] == '\0'
    modifies macConverted
    ensures IsText(macConverted, Normal(macValue))
  {
    var tmp := new char[32](k => if 0 <= k < |macValue| then macValue[k] else '\0');
    JoinTokens(macValue, tmp, macConverted);
    ghost var t := NoColon(macValue);
    var j := 0;
    while macConverted[j] != '\0'
      invariant 0 <= j <= |t| < 32 && macConverted[|t|] == '\0'
      invariant forall k :: 0 <= k < |t| ==> macConverted[k] == if k < j then ToLower(t[k]) else t[k]
      invariant forall k :: 0 <= k < |t| ==> t[k] != '\0'
      decreases |t| - j
    {
      macConverted[j] := ToLower(macConverted[j]);
      j := j + 1;
    }
  }

  /** Given the same address in two buffers, the two routines leave the same string. */
  method NormalisersAgree(value: array<char>, macValue: string, macConverted: array<char>)
    requires value != macConverted && IsText(value, macValue) && |macValue| < 32
    requires macConverted.Length == 32 && macConverted[0] == '\0'
    modifies value, macConverted
    ensures forall t :: IsText(value, t) ==> IsText(macConverted, t)
  {
    NormaliseKeyValue(value, macValue);
    MacToLower(macValue, macConverted);
    forall t | IsText(value, t) ensures IsText(macConverted, t) {
      TextUnique(value, t, Normal(macValue));
    }
  }
}
