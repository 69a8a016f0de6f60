/** Instance paths: matchComponent, the nested dispatch of a GET below
    Device.IP.Interface, and the object paths the table events print. */
module InstancePaths {
  import opened CText

  const MAX_NUM_LEN: nat := 10

  datatype Component = NoMatch | Match(instanceNo: int, setting: string)

  // --------------------------------------------------------- matchComponent

  /** strchr(&s[p], '.'), as an index; |s| when there is no dot. */
  function FirstDot(s: string, p: nat): (i: nat)
    requires p <= |s|
    ensures p <= i <= |s|
    ensures i < |s| ==> s[i] == '.'
    ensures forall k :: p <= k < i ==> s[k] != '.'
    decreases |s| - p
  {
    if p == |s| || s[p] == '.' then p else FirstDot(s, p + 1)
  }

  /** strncasecmp(param, key, strlen(key)) == 0 */
  predicate HasKey(param: string, key: string) {
    |key| <= |param| && EqualIgnoringCase(param[..|key|], key)
  }

  function Atoi(s: string): int {
    ScanInteger(s).value
  }

  /** matchComponent on values. */
  function MatchedComponent(param: string, key: string): Component {
    var n := |key|;
    if HasKey(param, key) && n < |param| && param[n] == '.' then
      var dot := FirstDot(param, n + 1);
      if dot < |param| && dot - (n + 1) < MAX_NUM_LEN
      then Match(Atoi(param[n + 1..dot]), param[dot + 1..])
      else NoMatch
    else NoMatch
  }

  /** matchComponent with its out-parameters, which keep their values when there
      is no match. */
  method MatchComponent(pParam: string, pKey: string, setting0: string, instance0: int)
    returns (ret: bool, pSetting: string, instanceNo: int)
    ensures ret <==> exists number, rest :: SplitsAs(pParam, pKey, number, rest)
    ensures ret ==> forall number, rest ::
              SplitsAs(pParam, pKey, number, rest) ==> instanceNo == Atoi(number) && pSetting == rest
    ensures !ret ==> pSetting == setting0 && instanceNo == instance0
  {
    hide EqualIgnoringCase, ScanInteger;
    pSetting, instanceNo := setting0, instance0;
    MatchIffSplits(pParam, pKey);
    var strLen := |pKey|;
    ret := HasKey(pParam, pKey);
    if ret {
      if strLen < |pParam| && pParam[strLen] == '.' {
        var tmp := FirstDot(pParam, strLen + 1);
        if tmp < |pParam| && tmp - (strLen + 1) < MAX_NUM_LEN {
          instanceNo := Atoi(pParam[strLen + 1..tmp]);
          pSetting := pParam[tmp + 1..];
          return;
        }
      }
      ret := false;
    }
  }

  /** The text is a key in any case, ".", at most nine characters without a dot,
      ".", and a rest. */
  ghost predicate SplitsAs(param: string, key: string, number: string, rest: string) {
    && HasKey(param, key)
    && param == param[..|key|] + ("." + number + "." + rest)
    && |number| < MAX_NUM_LEN
    && '.' !in number
  }

  /** There is at most one such split, and matchComponent finds it. */
  lemma SplitIsMatch(param: string, key: string, number: string, rest: string)
    requires SplitsAs(param, key, number, rest)
    ensures MatchedComponent(param, key) == Match(Atoi(number), rest)
    ensures number == param[|key| + 1..FirstDot(param, |key| + 1)]
  {
    hide EqualIgnoringCase, ScanInteger;
    var n := |key|;
    var tail := "." + number + "." + rest;
    assert forall k :: n <= k < |param| ==> param[k] == tail[k - n];
    var dot := n + 1 + |number|;
    assert forall k :: n + 1 <= k < dot ==> param[k] == number[k - n - 1];
    FirstDotIs(param, n + 1, dot);
    assert param[n + 1..dot] == number;
    assert param[dot + 1..] == rest;
  }

  lemma {:induction false} FirstDotIs(s: string, p: nat, dot: nat)
    requires p <= dot < |s| && s[dot] == '.' && forall k :: p <= k < dot ==> s[k] != '.'
    ensures FirstDot(s, p) == dot
    decreases dot - p
  {
    if p < dot {
      FirstDotIs(s, p + 1, dot);
    }
  }

  lemma MatchIsSplit(param: string, key: string)
    requires MatchedComponent(param, key).Match?
    ensures exists number, rest :: SplitsAs(param, key, number, rest)
  {
    hide EqualIgnoringCase, ScanInteger;
    var n := |key|;
    var dot := FirstDot(param, n + 1);
    var number, rest := param[n + 1..dot], param[dot + 1..];
    assert param == param[..n] + ("." + number + "." + rest);
    assert '.' !in number;
    assert SplitsAs(param, key, number, rest);
  }

  /** The exact condition for a match, and the uniqueness of what it returns. */
  lemma MatchIffSplits(param: string, key: string)
    ensures MatchedComponent(param, key).Match? <==> exists number, rest :: SplitsAs(param, key, number, rest)
    ensures forall number, rest :: SplitsAs(param, key, number, rest)
              ==> MatchedComponent(param, key) == Match(Atoi(number), rest)
  {
    if MatchedComponent(param, key).Match? {
      MatchIsSplit(param, key);
    }
    forall number, rest | SplitsAs(param, key, number, rest)
      ensures MatchedComponent(param, key) == Match(Atoi(number), rest)
    {
      SplitIsMatch(param, key, number, rest);
    }
  }

  lemma DigitsHaveNoDot(s: string)
    requires AllDigits(s)
    ensures '.' !in s
  {
    assert forall k :: 0 <= k < |s| ==> IsDigit(s[k]);
  }

  /** A printed number is parsed back exactly when it has at most nine digits. */
  lemma PrintedNumberMatches(key: string, n: nat, rest: string)
    ensures MatchedComponent(key + ("." + Decimal(n) + "." + rest), key)
            == if n < 1_000_000_000 then Match(n, rest) else NoMatch
  {
    var text := Decimal(n);
    var param := key + ("." + text + "." + rest);
    DigitsHaveNoDot(text);
    DecimalLength(n, 9);
    assert Pow10(9) == 1_000_000_000 by { PowerOfTen(); }
    assert param[..|key|] == key;
    if |text| <= 9 {
      assert SplitsAs(param, key, text, rest);
      SplitIsMatch(param, key, text, rest);
      ScanIntText(n);
    } else {
      var tail := "." + text + "." + rest;
      assert forall k :: |key| <= k < |param| ==> param[k] == tail[k - |key|];
      assert forall k :: 0 <= k < |text| ==> param[|key| + 1 + k] == text[k];
      FirstDotIs(param, |key| + 1, |key| + 1 + |text|);
    }
  }

  lemma PowerOfTen()
    ensures Pow10(9) == 1_000_000_000
  {
    assert Pow10(3) == 1000;
    assert Pow10(6) == 1_000_000;
  }

  // ------------------------------------------------------------ object paths

  /** The tables whose instances IPClientReqHandler reports. */
  datatype Table =
    | Interfaces
    | IPv4Addresses(i: nat)
    | IPv6Addresses(i: nat)
    | IPv6Prefixes(i: nat)

  function Kind(t: Table): string
    requires !t.Interfaces?
  {
    match t
    case IPv4Addresses(_) => "IPv4Address"
    case IPv6Addresses(_) => "IPv6Address"
    case IPv6Prefixes(_) => "IPv6Prefix"
  }

  const INTERFACE := "Device.IP.Interface"

  /** The object path that sprintf builds for a table. */
  function ObjectPath(t: Table): string {
    if t.Interfaces? then INTERFACE + "."
    else INTERFACE + ("." + Decimal(t.i) + "." + (Kind(t) + "."))
  }

  /** sprintf(instancePath, "%s%d.", objectPath, n) */
  function InstancePath(objectPath: string, n: int): string {
    objectPath + IntText(n) + "."
  }

  // ---------------------------------------------- the dispatch of handleGetMsg

  /** Where IPClientReqHandler::handleGetMsg sends a parameter below an interface. */
  datatype Target =
    | NotFound
    | Elsewhere
    | Stats(i: int, rest: string)
    | Entry(i: int, kind: string, j: int, rest: string)
    | Interface(i: int, rest: string)

  /** `entries` is the interface count, when it can be read. */
  function Dispatch(param: string, entries: int, countOk: bool, ipv6: bool): Target {
    match MatchedComponent(param, INTERFACE)
    case NoMatch => Elsewhere
    case Match(i, rest) =>
      if i == 0 || !countOk || i > entries then NotFound
      else if HasKey(rest, "Stats") then Stats(i, rest)
      else
        match MatchedComponent(rest, "IPv4Address")
        case Match(j, rest2) => Entry(i, "IPv4Address", j, rest2)
        case NoMatch =>
          if !ipv6 then Interface(i, rest)
          else
            match MatchedComponent(rest, "IPv6Address")
            case Match(j, rest2) => Entry(i, "IPv6Address", j, rest2)
            case NoMatch =>
              match MatchedComponent(rest, "IPv6Prefix")
              case Match(j, rest2) => Entry(i, "IPv6Prefix", j, rest2)
              case NoMatch => Interface(i, rest)
  }

  lemma PathText(t: Table, j: nat)
    requires !t.Interfaces?
    ensures InstancePath(ObjectPath(t), j)
            == INTERFACE + ("." + Decimal(t.i) + "." + (Kind(t) + ("." + Decimal(j) + "." + "")))
  {
  }

  lemma DifferentKeys(rest: string)
    ensures !HasKey("IPv4Address" + rest, "Stats")
    ensures !HasKey("IPv6Address" + rest, "Stats") && !HasKey("IPv6Address" + rest, "IPv4Address")
    ensures !HasKey("IPv6Prefix" + rest, "Stats") && !HasKey("IPv6Prefix" + rest, "IPv4Address")
    ensures !HasKey("IPv6Prefix" + rest, "IPv6Address")
  {
    assert ("IPv4Address" + rest)[0] == 'I' && ("IPv6Address" + rest)[0] == 'I';
    forall s, k | HasKey(s, k) && k != "" ensures ToLower(s[0]) == ToLower(k[0]) {
      assert Lower(s[..|k|])[0] == Lower(k)[0];
    }
    forall s, k | HasKey(s, k) && |k| > 4 ensures ToLower(s[3]) == ToLower(k[3]) && ToLower(s[4]) == ToLower(k[4]) {
      assert Lower(s[..|k|])[3] == Lower(k)[3] && Lower(s[..|k|])[4] == Lower(k)[4];
    }
    assert ("IPv6Address" + rest)[3] == '6';
    assert ("IPv6Prefix" + rest)[0] == 'I' && ("IPv6Prefix" + rest)[3] == '6' && ("IPv6Prefix" + rest)[4] == 'P';
  }

  /** The nested path round trip: what the table events print for instance j below
      interface i, a GET takes back to exactly (i, j, ""). */
  lemma NestedPathRoundTrip(t: Table, j: nat, entries: int, ipv6: bool)
    requires !t.Interfaces? && 1 <= t.i <= entries && t.i < 1_000_000_000
    requires 1 <= j < 1_000_000_000
    requires ipv6 || t.IPv4Addresses?
    ensures Dispatch(InstancePath(ObjectPath(t), j), entries, true, ipv6) == Entry(t.i, Kind(t), j, "")
  {
    hide Decimal, IntText, HasKey, Atoi, FirstDot;
    var inner := "." + Decimal(j) + "." + "";
    PathText(t, j);
    PrintedNumberMatches(INTERFACE, t.i, Kind(t) + inner);
    PrintedNumberMatches(Kind(t), j, "");
    DifferentKeys(inner);
  }

  lemma InterfacePathRoundTrip(i: nat, entries: int, ipv6: bool)
    requires 1 <= i <= entries && i < 1_000_000_000
    ensures Dispatch(InstancePath(ObjectPath(Interfaces), i), entries, true, ipv6) == Interface(i, "")
  {
    hide Decimal, EqualIgnoringCase, Atoi, FirstDot;
    assert InstancePath(ObjectPath(Interfaces), i) == INTERFACE + ("." + Decimal(i) + "." + "");
    PrintedNumberMatches(INTERFACE, i, "");
  }

  /** strncasecmp, letter by letter. */
  lemma HasKeyIff(param: string, key: string)
    ensures HasKey(param, key)
            <==> |key| <= |param| && forall i :: 0 <= i < |key| ==> ToLower(param[i]) == ToLower(key[i])
  {
    if |key| <= |param| {
      EqualIgnoringCaseIff(param[..|key|], key);
      assert forall i :: 0 <= i < |key| ==> param[..|key|][i] == param[i];
    }
  }

  /** No text has two of the keys that the dispatch below an interface looks for. */
  lemma OneKey(rest: string)
    ensures HasKey(rest, "IPv4Address") ==> !HasKey(rest, "Stats")
    ensures HasKey(rest, "IPv6Address") ==> !HasKey(rest, "Stats") && !HasKey(rest, "IPv4Address")
    ensures HasKey(rest, "IPv6Prefix") ==>
              !HasKey(rest, "Stats") && !HasKey(rest, "IPv4Address") && !HasKey(rest, "IPv6Address")
  {
    hide HasKey;
    HasKeyIff(rest, "Stats");
    HasKeyIff(rest, "IPv4Address");
    HasKeyIff(rest, "IPv6Address");
    HasKeyIff(rest, "IPv6Prefix");
    assert "Stats"[0] == 'S' && "IPv4Address"[0] == 'I' && "IPv6Address"[0] == 'I' && "IPv6Prefix"[0] == 'I';
    assert "IPv4Address"[3] == '4' && "IPv6Address"[3] == '6' && "IPv6Prefix"[3] == '6';
    assert "IPv6Address"[4] == 'A' && "IPv6Prefix"[4] == 'P';
  }

  /** The whole dispatch of a printed interface number and anything behind it: the
      interfaces that are not there are refused, and the rest of the text decides
      by how it splits. */
  lemma DispatchBySplit(i: nat, rest: string, entries: int, countOk: bool, ipv6: bool)
    requires i < 1_000_000_000
    ensures var d := Dispatch("Device.IP.Interface" + ("." + Decimal(i) + "." + rest), entries, countOk, ipv6);
            var found := 1 <= i <= entries && countOk;
            && (d == NotFound <==> !found)
            && (found && HasKey(rest, "Stats") ==> d == Stats(i, rest))
            && (found ==> forall number, tail :: SplitsAs(rest, "IPv4Address", number, tail) ==>
                  d == Entry(i, "IPv4Address", Atoi(number), tail))
            && (found && ipv6 ==> forall number, tail :: SplitsAs(rest, "IPv6Address", number, tail) ==>
                  d == Entry(i, "IPv6Address", Atoi(number), tail))
            && (found && ipv6 ==> forall number, tail :: SplitsAs(rest, "IPv6Prefix", number, tail) ==>
                  d == Entry(i, "IPv6Prefix", Atoi(number), tail))
            && (found && !HasKey(rest, "Stats")
                && (forall number, tail :: !SplitsAs(rest, "IPv4Address", number, tail))
                && (ipv6 ==> forall number, tail ::
                      !SplitsAs(rest, "IPv6Address", number, tail) && !SplitsAs(rest, "IPv6Prefix", number, tail))
                ==> d == Interface(i, rest))
  {
    hide HasKey, MatchedComponent, Decimal, Atoi;
    PrintedNumberMatches(INTERFACE, i, rest);
    OneKey(rest);
    MatchIffSplits(rest, "IPv4Address");
    MatchIffSplits(rest, "IPv6Address");
    MatchIffSplits(rest, "IPv6Prefix");
    MatchNeedsKey(rest, "IPv4Address");
    MatchNeedsKey(rest, "IPv6Address");
  }

  lemma MatchNeedsKey(param: string, key: string)
    ensures MatchedComponent(param, key).Match? ==> HasKey(param, key)
  {
  }

  /** A text that does not match at all goes elsewhere. */
  lemma DispatchElsewhere(param: string, entries: int, countOk: bool, ipv6: bool)
    ensures Dispatch(param, entries, countOk, ipv6) == Elsewhere
            <==> forall number, rest :: !SplitsAs(param, "Device.IP.Interface", number, rest)
  {
    hide HasKey, MatchedComponent, Atoi;
    MatchIffSplits(param, INTERFACE);
  }

  lemma Regrouped(a: string, d: string, k: string)
    ensures a + ("." + d + "." + (k + ".")) == (a + ".") + d + ("." + k + ".")
  {
  }

  /** The object paths, in letters. */
  lemma ObjectPathText(i: nat)
    ensures ObjectPath(Interfaces) == "Device.IP.Interface."
    ensures ObjectPath(IPv4Addresses(i)) == "Device.IP.Interface." + Decimal(i) + ".IPv4Address."
    ensures ObjectPath(IPv6Addresses(i)) == "Device.IP.Interface." + Decimal(i) + ".IPv6Address."
    ensures ObjectPath(IPv6Prefixes(i)) == "Device.IP.Interface." + Decimal(i) + ".IPv6Prefix."
  {
    hide Decimal;
    var d := Decimal(i);
    assert INTERFACE + "." == "Device.IP.Interface.";
    Regrouped(INTERFACE, d, "IPv4Address");
    Regrouped(INTERFACE, d, "IPv6Address");
    Regrouped(INTERFACE, d, "IPv6Prefix");
    assert "." + "IPv4Address" + "." == ".IPv4Address.";
    assert "." + "IPv6Address" + "." == ".IPv6Address.";
    assert "." + "IPv6Prefix" + "." == ".IPv6Prefix.";
  }

  // --------------------------------------- reading an instance path without bounds

  /** The start of the run of digits that ends s[..end]. */
  function DigitsFrom(s: string, end: nat): (p: nat)
    requires end <= |s|
    ensures p <= end && AllDigits(s[p..end])
    ensures p > 0 ==> !IsDigit(s[p - 1])
    decreases end
  {
    if end == 0 || !IsDigit(s[end - 1]) then end
    else
      var p := DigitsFrom(s, end - 1);
      assert s[p..end] == s[p..end - 1] + [s[end - 1]];
      p
  }

  datatype Instance = Instance(objectPath: string, n: nat)

  /** How a subscriber reads "<objectPath><n>." */
  function ReadInstance(text: string): Instance {
    if text == "" then Instance("", 0)
    else
      var p := DigitsFrom(text, |text| - 1);
      Instance(text[..p], Value(text[p..|text| - 1]))
  }

  lemma {:induction false} DigitsFromIs(s: string, p: nat, end: nat)
    requires p <= end <= |s| && AllDigits(s[p..end]) && (p > 0 ==> !IsDigit(s[p - 1]))
    ensures DigitsFrom(s, end) == p
    decreases end
  {
    if p < end {
      assert IsDigit(s[p..end][end - 1 - p]);
      assert s[p..end - 1] == s[p..end][..end - 1 - p];
      DigitsFromIs(s, p, end - 1);
    }
  }

  /** Every printed instance path reads back, whatever the number. */
  lemma ReadPrintedInstance(objectPath: string, n: nat)
    requires objectPath != "" ==> !IsDigit(objectPath[|objectPath| - 1])
    ensures ReadInstance(InstancePath(objectPath, n)) == Instance(objectPath, n)
  {
    var text := InstancePath(objectPath, n);
    var p, end := |objectPath|, |text| - 1;
    assert text[p..end] == Decimal(n);
    assert text[..p] == objectPath;
    DigitsFromIs(text, p, end);
    ValueOfDecimal(n);
  }

  lemma ObjectPathEndsInDot(t: Table)
    ensures var s := ObjectPath(t); s != "" && s[|s| - 1] == '.'
  {
  }

  /** Two tables never share an object path. */
  lemma ObjectPathInjective(t: Table, u: Table)
    requires ObjectPath(t) == ObjectPath(u)
    ensures t == u
  {
    var p, q := ObjectPath(t), ObjectPath(u);
    var n := |INTERFACE|;
    if !t.Interfaces? && !u.Interfaces? {
      var a, b := "." + Decimal(t.i) + "." + (Kind(t) + "."), "." + Decimal(u.i) + "." + (Kind(u) + ".");
      assert p[n..] == a && q[n..] == b;
      SameSplit(Decimal(t.i), Kind(t) + ".", Decimal(u.i), Kind(u) + ".");
      SameSplit(Decimal(u.i), Kind(u) + ".", Decimal(t.i), Kind(t) + ".");
      DecimalInjective(t.i, u.i);
      assert Kind(t) + "." == Kind(u) + ".";
      assert (Kind(t) + ".")[..|Kind(t)|] == Kind(t);
    }
  }

  lemma SameSplit(a: string, x: string, b: string, y: string)
    requires "." + a + "." + x <= "." + b + "." + y
    requires '.' !in a && '.' !in b
    ensures a == b && x <= y
  {
    var s, t := "." + a + "." + x, "." + b + "." + y;
    assert s == t[..|s|];
    assert t[1 + |a|] == '.' && forall k :: 1 <= k < 1 + |a| ==> t[k] == a[k - 1];
    FirstDotIs(t, 1, 1 + |a|);
    FirstDotIs(t, 1, 1 + |b|);
    assert t[1..1 + |a|] == a && t[1..1 + |b|] == b;
    assert s[2 + |a|..] == x && t[2 + |b|..] == y;
  }

  /** The tables below instance n of a table: those of interface n, and no others. */
  lemma BelowIff(u: Table, n: nat, t: Table)
    ensures InstancePath(ObjectPath(u), n) <= ObjectPath(t) <==> u.Interfaces? && !t.Interfaces? && t.i == n
  {
    hide Decimal;
    var p, q := InstancePath(ObjectPath(u), n), ObjectPath(t);
    if !t.Interfaces? {
      var kind := Kind(t) + ".";
      assert q == INTERFACE + ("." + Decimal(t.i) + "." + kind);
      if u.Interfaces? {
        assert p == INTERFACE + ("." + Decimal(n) + "." + "");
        PrefixBehind(INTERFACE, "." + Decimal(n) + "." + "", "." + Decimal(t.i) + "." + kind);
        if p <= q {
          SameSplit(Decimal(n), "", Decimal(t.i), kind);
          DecimalInjective(n, t.i);
        }
      } else if p <= q {
        PathText(u, n);
        var deeper := Kind(u) + ("." + Decimal(n) + "." + "");
        PrefixBehind(INTERFACE, "." + Decimal(u.i) + "." + deeper, "." + Decimal(t.i) + "." + kind);
        SameSplit(Decimal(u.i), deeper, Decimal(t.i), kind);
        assert false;
      }
    }
  }

  lemma PrefixBehind(front: string, a: string, b: string)
    ensures front + a <= front + b <==> a <= b
  {
    if a <= b {
      assert b == a + b[|a|..];
      assert front + b == front + a + b[|a|..];
    }
    if front + a <= front + b {
      assert forall k :: 0 <= k < |a| ==> a[k] == (front + a)[|front| + k] == (front + b)[|front| + k] == b[k];
    }
  }
}
