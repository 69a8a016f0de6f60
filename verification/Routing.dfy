/** Parameter routing: the prefix table read from the manager list, and the first
    match over the keys of a hash table, whose order is not defined. */
module Routing {
  import opened Common
  import opened CText

  /** HOSTIF_INVALID_Mgr */
  const INVALID: nat := 0

  /** The manager names compiled in, in lower case, with their identifiers. */
  type Managers = map<string, nat>

  /** One pair of words of the manager list. */
  datatype Line = Line(param: string, mgr: string)

  predicate Usable(known: Managers) {
    forall n :: n in known ==> known[n] != INVALID
  }

  predicate Recognised(line: Line, known: Managers) {
    Lower(line.mgr) in known
  }

  /** The variable mgrName after the first n lines: the manager of the last
      recognised one. */
  function MgrName(lines: seq<Line>, known: Managers, n: nat): nat
    requires n <= |lines|
  {
    if n == 0 then INVALID
    else if Recognised(lines[n - 1], known) then known[Lower(lines[n - 1].mgr)]
    else MgrName(lines, known, n - 1)
  }

  /** The table after the first n lines. */
  function Table(lines: seq<Line>, known: Managers, n: nat): map<string, nat>
    requires n <= |lines|
  {
    if n == 0 then map[]
    else
      var mgr := MgrName(lines, known, n);
      var t := Table(lines, known, n - 1);
      if mgr != INVALID then t[lines[n - 1].param := mgr] else t
  }

  /** The loop of hostIf_initalize_ConfigManger. */
  method LoadTable(lines: seq<Line>, known: Managers) returns (paramMgrhash: map<string, nat>)
    ensures paramMgrhash == Table(lines, known, |lines|)
  {
    var mgrName, i := INVALID, 0;
    paramMgrhash := map[];
    while i < |lines|
      invariant i <= |lines|
      invariant mgrName == MgrName(lines, known, i)
      invariant paramMgrhash == Table(lines, known, i)
    {
      if Lower(lines[i].mgr) in known {
        mgrName := known[Lower(lines[i].mgr)];
      }
      if mgrName != INVALID {
        paramMgrhash := paramMgrhash[lines[i].param := mgrName];
      }
      i := i + 1;
    }
  }

  /** The last line below n that names the parameter and is not skipped; n when
      there is none. */
  function Source(lines: seq<Line>, known: Managers, n: nat, param: string): (i: nat)
    requires n <= |lines|
    ensures i < n ==> lines[i].param == param && MgrName(lines, known, i + 1) != INVALID
    ensures forall j :: (if i < n then i < j else 0 <= j) && j < n
              ==> lines[j].param != param || MgrName(lines, known, j + 1) == INVALID
  {
    if n == 0 then 0
    else if lines[n - 1].param == param && MgrName(lines, known, n) != INVALID then n - 1
    else
      var i := Source(lines, known, n - 1, param);
      if i == n - 1 then n else i
  }

  /** What the table says: the manager in force at the parameter's last line. */
  lemma {:induction false} TableEntry(lines: seq<Line>, known: Managers, n: nat, param: string)
    requires n <= |lines|
    ensures var i := Source(lines, known, n, param);
            && (param in Table(lines, known, n) <==> i < n)
            && (i < n ==> Table(lines, known, n)[param] == MgrName(lines, known, i + 1))
  {
    if n > 0 {
      TableEntry(lines, known, n - 1, param);
    }
  }

  predicate KnownAt(lines: seq<Line>, known: Managers, i: nat) {
    i < |lines| && Recognised(lines[i], known)
  }

  predicate Skipped(lines: seq<Line>, known: Managers, i: nat)
    requires i < |lines|
  {
    MgrName(lines, known, i + 1) == INVALID
  }

  /** A line is skipped exactly when neither it nor any line before it is recognised. */
  lemma {:induction false} SkippedIff(lines: seq<Line>, known: Managers, i: nat)
    requires Usable(known) && i < |lines|
    ensures Skipped(lines, known, i) <==> forall k: nat :: k <= i ==> !KnownAt(lines, known, k)
  {
    if KnownAt(lines, known, i) {
      assert MgrName(lines, known, i + 1) == known[Lower(lines[i].mgr)];
    } else if i > 0 {
      SkippedIff(lines, known, i - 1);
    } else {
      assert MgrName(lines, known, 0) == INVALID;
      assert forall k: nat :: k <= i ==> KnownAt(lines, known, k) == KnownAt(lines, known, i);
    }
  }

  /** The log promises that a line with an unknown manager is skipped. That holds
      for a whole file exactly when its unknown managers come before its known
      ones; elsewhere the line takes the manager of an earlier line. */
  lemma SkipsAsPromisedIff(lines: seq<Line>, known: Managers)
    requires Usable(known)
    ensures (forall i: nat :: i < |lines| ==> (Skipped(lines, known, i) <==> !KnownAt(lines, known, i)))
            <==> (forall i: nat, j: nat :: i < j < |lines| && KnownAt(lines, known, i) ==> KnownAt(lines, known, j))
  {
    if forall i: nat, j: nat :: i < j < |lines| && KnownAt(lines, known, i) ==> KnownAt(lines, known, j) {
      forall i: nat | i < |lines| ensures Skipped(lines, known, i) <==> !KnownAt(lines, known, i) {
        SkippedIff(lines, known, i);
      }
    } else {
      var i: nat, j: nat :| i < j < |lines| && KnownAt(lines, known, i) && !KnownAt(lines, known, j);
      SkippedIff(lines, known, j);
      assert !Skipped(lines, known, j);
    }
  }

  // ------------------------------------------------------------------ the look-up

  /** strncmp(data, pParam, strlen(data)) == 0 */
  predicate Matches(key: string, param: string) {
    key <= param
  }

  /** The first matching key in the order the hash table delivers. */
  function FirstMatch(order: seq<string>, param: string): (i: nat)
    ensures i <= |order|
    ensures i < |order| ==> Matches(order[i], param)
    ensures forall j :: 0 <= j < i ==> !Matches(order[j], param)
  {
    if order == [] || Matches(order[0], param) then 0
    else 1 + FirstMatch(order[1..], param)
  }

  function Route(order: seq<string>, table: map<string, nat>, param: string): nat
    requires forall k :: k in order ==> k in table
  {
    var i := FirstMatch(order, param);
    if i < |order| then table[order[i]] else INVALID
  }

  /** The manager HostIf_GetMgr selects, by a cursor over the key list. */
  method HostIfGetMgr(table: map<string, nat>, list: seq<string>, pParam: string) returns (mgrId: nat)
    requires forall k :: k in list ==> k in table
    ensures mgrId == Route(list, table, pParam)
    ensures (forall i :: 0 <= i < |list| ==> !(list[i] <= pParam)) ==> mgrId == 0
    ensures (exists i :: 0 <= i < |list| && list[i] <= pParam) ==>
              exists i :: 0 <= i < |list| && list[i] <= pParam && mgrId == table[list[i]]
                          && forall j :: 0 <= j < i ==> !(list[j] <= pParam)
  {
    mgrId := INVALID;
    var keys := 0;
    assert list[0..] == list;
    while keys < |list|
      invariant keys <= |list|
      invariant FirstMatch(list, pParam) == keys + FirstMatch(list[keys..], pParam)
      invariant mgrId == INVALID
    {
      if Matches(list[keys], pParam) {
        mgrId := table[list[keys]];
        return;
      }
      assert list[keys..][1..] == list[keys + 1..];
      keys := keys + 1;
    }
  }

  /** Two keys that match the same parameter are prefixes of one another. */
  lemma MatchesAreComparable(a: string, b: string, param: string)
    requires Matches(a, param) && Matches(b, param)
    ensures a <= b || b <= a
  {
    if |a| <= |b| {
      assert a == param[..|a|] == b[..|a|];
    } else {
      assert b == param[..|b|] == a[..|b|];
    }
  }

  lemma SomeOrder(keys: set<string>) returns (order: seq<string>)
    ensures forall k :: k in order <==> k in keys
    ensures forall i, j :: 0 <= i < j < |order| ==> order[i] != order[j]
  {
    if keys == {} {
      order := [];
    } else {
      var k :| k in keys;
      var rest := SomeOrder(keys - {k});
      order := [k] + rest;
      assert forall q :: q in order <==> q == k || q in rest;
    }
  }

  /** Some order of the table delivers the given key first. */
  lemma OrderStartingWith(table: map<string, nat>, key: string) returns (order: seq<string>)
    requires key in table
    ensures Enumerates(order, table) && order[0] == key
  {
    var rest := SomeOrder(table.Keys - {key});
    order := [key] + rest;
    assert forall q :: q in order <==> q == key || q in rest;
  }

  ghost predicate OrderIndependent(table: map<string, nat>, param: string) {
    forall o1, o2 :: Enumerates(o1, table) && Enumerates(o2, table) ==>
      Route(o1, table, param) == Route(o2, table, param)
  }

  /** The order in which the hash table is walked does not matter exactly when all
      matching keys carry the same manager. */
  lemma OrderIndependentIff(table: map<string, nat>, param: string)
    ensures OrderIndependent(table, param)
            <==> forall a, b :: a in table && b in table && Matches(a, param) && Matches(b, param)
                   ==> table[a] == table[b]
  {
    if OrderIndependent(table, param) {
      forall a, b | a in table && b in table && Matches(a, param) && Matches(b, param)
        ensures table[a] == table[b]
      {
        var oa := OrderStartingWith(table, a);
        var ob := OrderStartingWith(table, b);
        assert FirstMatch(oa, param) == 0 && FirstMatch(ob, param) == 0;
        assert Route(oa, table, param) == Route(ob, table, param);
      }
    } else {
      var o1, o2 :| Enumerates(o1, table) && Enumerates(o2, table)
        && Route(o1, table, param) != Route(o2, table, param);
      BothMatch(o1, o2, table, param);
      var i, j := FirstMatch(o1, param), FirstMatch(o2, param);
      assert o1[i] in table && o2[j] in table;
      assert table[o1[i]] != table[o2[j]];
    }
  }

  lemma BothMatch(o1: seq<string>, o2: seq<string>, table: map<string, nat>, param: string)
    requires Enumerates(o1, table) && Enumerates(o2, table)
    ensures FirstMatch(o1, param) < |o1| <==> FirstMatch(o2, param) < |o2|
  {
    var i, j := FirstMatch(o1, param), FirstMatch(o2, param);
    if i < |o1| {
      assert o1[i] in o1;
      assert o1[i] in o2;
    }
    if j < |o2| {
      assert o2[j] in o2;
      assert o2[j] in o1;
    }
  }

  /** The table routes every parameter the same way in every order exactly when a
      key and a longer key it is a prefix of always carry the same manager. */
  lemma TableIndependentIff(table: map<string, nat>)
    ensures (forall param :: OrderIndependent(table, param))
            <==> forall a, b :: a in table && b in table && a <= b ==> table[a] == table[b]
  {
    if forall param :: OrderIndependent(table, param) {
      forall a, b | a in table && b in table && a <= b ensures table[a] == table[b] {
        assert OrderIndependent(table, b);
        OrderIndependentIff(table, b);
        assert Matches(a, b) && Matches(b, b);
      }
    }
    if forall a, b :: a in table && b in table && a <= b ==> table[a] == table[b] {
      forall param ensures OrderIndependent(table, param) {
        OrderIndependentIff(table, param);
        forall a, b | a in table && b in table && Matches(a, param) && Matches(b, param)
          ensures table[a] == table[b]
        {
          MatchesAreComparable(a, b, param);
        }
      }
    }
  }

  // -------------------------------------------------------------- the shipped list

  /** conf/mgrlist.conf */
  const SHIPPED: seq<Line> := [
    Line("Device.DeviceInfo", "deviceMgr"),
    Line("Device.Services.STBService", "dsMgr"),
    Line("Device.Services.StorageService", "storageSrvcMgr"),
    Line("Device.MoCA", "mocaMgr"),
    Line("Device.X_COMCAST-COM_Xcalibur", "xreMgr"),
    Line("Device.Ethernet", "ethernetMgr"),
    Line("Device.IP", "ipMgr"),
    Line("Device.Time", "timeMgr"),
    Line("Device.WiFi", "wifiMgr"),
    Line("Device.DHCPv4", "dhcpv4Mgr"),
    Line("Device.InterfaceStack", "ifStackMgr"),
    Line("Device.X_RDKCENTRAL-COM_DocsIf", "snmpAdapterMgr"),
    Line("Device.DeviceInfo.X_RDK_SNMP", "snmpAdapterMgr"),
    Line("Device.X_RDK_WebConfig", "webConfigMgr"),
    Line("Device.X_RDKCENTRAL-COM_T2", "telemetryMgr"),
    Line("Device.X_RDK_", "rdkProfileMgr")
  ]

  /** The manager names that every build compiles in, and those that depend on its
      options. "webConfigMgr" is in neither list. */
  const ALWAYS := {"devicemgr", "dsmgr", "telemetrymgr", "ethernetmgr", "ipmgr", "timemgr", "rdkprofilemgr"}
  const OPTIONAL := {"mocamgr", "xremgr", "wifimgr", "dhcpv4mgr", "ifstackmgr", "storagesrvcmgr", "snmpadaptermgr"}

  /** The managers of some build; the identifiers are those of an enumeration. */
  predicate IsBuild(known: Managers) {
    && Usable(known)
    && ALWAYS <= known.Keys <= ALWAYS + OPTIONAL
    && forall m, n :: m in known && n in known && known[m] == known[n] ==> m == n
  }

  predicate Distinct(lines: seq<Line>) {
    forall i, j :: 0 <= i < j < |lines| ==> lines[i].param != lines[j].param
  }

  /** The manager in force is that of the last recognised line. */
  lemma {:induction false} LastRecognised(lines: seq<Line>, known: Managers, n: nat, k: nat) returns (j: nat)
    requires k < n <= |lines| && Recognised(lines[k], known)
    ensures k <= j < n && Recognised(lines[j], known)
    ensures MgrName(lines, known, n) == known[Lower(lines[j].mgr)]
    decreases n
  {
    if Recognised(lines[n - 1], known) {
      j := n - 1;
    } else {
      j := LastRecognised(lines, known, n - 1, k);
    }
  }

  /** When the first line is recognised and no parameter repeats, no line is skipped
      and each has the manager in force at it. */
  lemma FullTable(lines: seq<Line>, known: Managers, i: nat)
    requires i < |lines| && Distinct(lines) && Usable(known) && Recognised(lines[0], known)
    ensures var t := Table(lines, known, |lines|);
            lines[i].param in t && t[lines[i].param] == MgrName(lines, known, i + 1)
  {
    hide Table, MgrName, Source;
    var n := |lines|;
    var k := LastRecognised(lines, known, i + 1, 0);
    TableEntry(lines, known, n, lines[i].param);
    assert Source(lines, known, n, lines[i].param) == i;
  }

  /** The two characters behind "Device." in each line. */
  const HEADS := ["De", "Se", "Se", "Mo", "X_", "Et", "IP", "Ti", "Wi", "DH", "In", "X_", "De", "X_", "X_", "X_"]

  lemma HeadOf(i: nat)
    requires i < |SHIPPED|
    ensures |HEADS| == |SHIPPED| && |HEADS[i]| == 2 && |SHIPPED[i].param| >= 9
    ensures SHIPPED[i].param[7] == HEADS[i][0] && SHIPPED[i].param[8] == HEADS[i][1]
  {
  }

  lemma PrefixAt(a: string, b: string, k: nat)
    requires a <= b && k < |a|
    ensures a[k] == b[k]
  {
  }

  /** A prefix of another line shares these, which leaves few pairs. */
  lemma SameHead(i: nat, j: nat)
    requires i < |SHIPPED| && j < |SHIPPED| && SHIPPED[i].param <= SHIPPED[j].param
    ensures i == j || {i, j} == {0, 12} || {i, j} == {1, 2} || {i, j} <= {4, 11, 13, 14, 15}
  {
    hide SHIPPED;
    HeadOf(i);
    HeadOf(j);
    PrefixAt(SHIPPED[i].param, SHIPPED[j].param, 7);
    PrefixAt(SHIPPED[i].param, SHIPPED[j].param, 8);
    assert HEADS[i][0] == HEADS[j][0] && HEADS[i][1] == HEADS[j][1];
  }

  lemma VendorParams(i: nat)
    requires i in {4, 11, 13, 14, 15}
    ensures var p := SHIPPED[i].param;
            && |p| >= 13 && p[9] == (if i == 4 then 'C' else 'R')
            && (i != 4 ==> p[12] == if i == 11 || i == 14 then 'C' else '_')
            && (i == 11 ==> |p| > 24 && p[24] == 'D') && (i == 14 ==> |p| > 24 && p[24] == 'T')
            && (i == 13 ==> |p| == 22) && (i == 15 ==> |p| == 13)
  {
  }

  lemma VendorPrefixes(i: nat, j: nat)
    requires i < |SHIPPED| && j < |SHIPPED|
    requires {i, j} <= {4, 11, 13, 14, 15} && i != j && SHIPPED[i].param <= SHIPPED[j].param
    ensures i == 15 && j == 13
  {
    hide SHIPPED;
    var a, b := SHIPPED[i].param, SHIPPED[j].param;
    assert i in {i, j} && j in {i, j};
    VendorParams(i);
    VendorParams(j);
    PrefixAt(a, b, 9);
    PrefixAt(a, b, 12);
  }

  /** Which parameters of the list are prefixes of which. */
  lemma ShippedPrefixes(i: nat, j: nat)
    requires i < |SHIPPED| && j < |SHIPPED|
    ensures SHIPPED[i].param <= SHIPPED[j].param <==> i == j || (i == 0 && j == 12) || (i == 15 && j == 13)
  {
    if SHIPPED[i].param <= SHIPPED[j].param && i != j {
      SameHead(i, j);
      if {i, j} == {1, 2} {
        PrefixAt(SHIPPED[i].param, SHIPPED[j].param, 17);
        assert false;
      } else if {i, j} == {0, 12} {
        assert i in {0, 12} && j in {0, 12};
      } else {
        VendorPrefixes(i, j);
      }
    }
  }

  lemma ShippedIsDistinct()
    ensures Distinct(SHIPPED)
  {
    hide SHIPPED;
    forall i, j | 0 <= i < j < |SHIPPED| ensures SHIPPED[i].param != SHIPPED[j].param {
      ShippedPrefixes(i, j);
      ShippedPrefixes(j, i);
    }
  }

  function ShippedTable(known: Managers): map<string, nat> {
    Table(SHIPPED, known, |SHIPPED|)
  }

  /** The manager names of the lines that the theorems below look at. */
  lemma ShippedManagers()
    ensures |SHIPPED| == 16
    ensures Lower(SHIPPED[0].mgr) == "devicemgr" && Lower(SHIPPED[7].mgr) == "timemgr"
    ensures Lower(SHIPPED[15].mgr) == "rdkprofilemgr" && Lower(SHIPPED[13].mgr) == "webconfigmgr"
  {
  }

  lemma OtherManagers(j: nat)
    requires 7 <= j <= 12
    ensures Lower(SHIPPED[j].mgr) !in {"devicemgr", "rdkprofilemgr"}
  {
    var m := SHIPPED[j].mgr;
    assert |m| != 13 && (|m| == 9 ==> m[1] == 'h');
    assert "devicemgr"[1] == 'e' && |"devicemgr"| == 9 && |"rdkprofilemgr"| == 13;
    assert |m| == 9 ==> Lower(m)[1] == 'h';
  }

  lemma NotCompiledIn()
    ensures "webconfigmgr" !in ALWAYS + OPTIONAL
  {
    var name := "webconfigmgr";
    assert |name| == 12;
    assert forall m :: m in ALWAYS + OPTIONAL ==> |m| != 12 || m[0] == 't';
  }

  /** No build recognises the manager of the X_RDK_WebConfig line, though the log
      says such lines are skipped: it goes to the manager of the line before it. */
  lemma WebConfigIsInherited(known: Managers)
    requires IsBuild(known)
    ensures var t := ShippedTable(known);
            && |SHIPPED| == 16 && !Recognised(SHIPPED[13], known)
            && SHIPPED[13].param in t && SHIPPED[12].param in t
            && t[SHIPPED[13].param] == t[SHIPPED[12].param]
  {
    hide SHIPPED, ALWAYS, OPTIONAL, Table, Lower;
    NotCompiledIn();
    ShippedManagers();
    ShippedIsDistinct();
    AlwaysKnown(known);
    FullTable(SHIPPED, known, 12);
    FullTable(SHIPPED, known, 13);
  }

  lemma AlwaysKnown(known: Managers)
    requires IsBuild(known)
    ensures "devicemgr" in known && "timemgr" in known && "rdkprofilemgr" in known
  {
    assert "devicemgr" in ALWAYS && "timemgr" in ALWAYS && "rdkprofilemgr" in ALWAYS;
  }

  /** The lines of X_RDK_SNMP and X_RDK_WebConfig have neither the manager of the
      first line nor that of the last, in any build. */
  lemma NeitherFirstNorLast(known: Managers, i: nat)
    requires IsBuild(known) && 12 <= i <= 13
    ensures var t := ShippedTable(known);
            && |SHIPPED| == 16 && (forall k :: 0 <= k < 16 ==> SHIPPED[k].param in t)
            && t[SHIPPED[i].param] != t[SHIPPED[0].param] && t[SHIPPED[i].param] != t[SHIPPED[15].param]
  {
    hide SHIPPED, ALWAYS, OPTIONAL, Table, Lower;
    NotCompiledIn();
    ShippedManagers();
    ShippedIsDistinct();
    AlwaysKnown(known);
    forall k | 0 <= k < 16 ensures SHIPPED[k].param in ShippedTable(known) {
      FullTable(SHIPPED, known, k);
    }
    FullTable(SHIPPED, known, 0);
    FullTable(SHIPPED, known, 15);
    FullTable(SHIPPED, known, i);
    var j := LastRecognised(SHIPPED, known, i + 1, 7);
    OtherManagers(j);
    assert MgrName(SHIPPED, known, 1) == known["devicemgr"];
    assert MgrName(SHIPPED, known, 16) == known["rdkprofilemgr"];
  }

  /** In every build, exactly two pairs of keys of the shipped list violate the
      condition of TableIndependentIff. */
  lemma ShippedPairsIff(known: Managers, a: string, b: string)
    requires IsBuild(known) && a in ShippedTable(known) && b in ShippedTable(known)
    ensures a <= b && ShippedTable(known)[a] != ShippedTable(known)[b]
            <==> (a == "Device.DeviceInfo" && b == "Device.DeviceInfo.X_RDK_SNMP")
                 || (a == "Device.X_RDK_" && b == "Device.X_RDK_WebConfig")
  {
    assert SHIPPED[0].param == "Device.DeviceInfo" && SHIPPED[12].param == "Device.DeviceInfo.X_RDK_SNMP";
    assert SHIPPED[15].param == "Device.X_RDK_" && SHIPPED[13].param == "Device.X_RDK_WebConfig";
    hide SHIPPED, ALWAYS, OPTIONAL, Table, MgrName, Source;
    TableEntry(SHIPPED, known, |SHIPPED|, a);
    TableEntry(SHIPPED, known, |SHIPPED|, b);
    var i, j := Source(SHIPPED, known, |SHIPPED|, a), Source(SHIPPED, known, |SHIPPED|, b);
    ShippedPrefixes(i, j);
    NeitherFirstNorLast(known, 12);
    NeitherFirstNorLast(known, 13);
    ShippedIsDistinct();
  }

  /** So routing under the shipped list depends on the order of the hash keys for
      exactly the parameters below these two. */
  lemma ShippedRoutingIff(known: Managers, param: string)
    requires IsBuild(known)
    ensures OrderIndependent(ShippedTable(known), param)
            <==> !("Device.DeviceInfo.X_RDK_SNMP" <= param) && !("Device.X_RDK_WebConfig" <= param)
  {
    var t := ShippedTable(known);
    assert SHIPPED[0].param == "Device.DeviceInfo" && SHIPPED[12].param == "Device.DeviceInfo.X_RDK_SNMP";
    assert SHIPPED[15].param == "Device.X_RDK_" && SHIPPED[13].param == "Device.X_RDK_WebConfig";
    hide SHIPPED, ShippedTable, OrderIndependent;
    OrderIndependentIff(t, param);
    NeitherFirstNorLast(known, 12);
    ShippedPairsIff(known, "Device.DeviceInfo", "Device.DeviceInfo.X_RDK_SNMP");
    ShippedPairsIff(known, "Device.X_RDK_", "Device.X_RDK_WebConfig");
    if a, b :| a in t && b in t && Matches(a, param) && Matches(b, param) && t[a] != t[b] {
      MatchesAreComparable(a, b, param);
      ShippedPairsIff(known, a, b);
      ShippedPairsIff(known, b, a);
    }
  }

  // ------------------------------------------------------------------ the builds

  lemma Numbered(names: set<string>) returns (known: Managers)
    ensures known.Keys == names && Usable(known)
    ensures forall n :: n in known ==> known[n] <= |names|
    ensures forall m, n :: m in known && n in known && known[m] == known[n] ==> m == n
  {
    if names == {} {
      known := map[];
    } else {
      var name :| name in names;
      var rest := Numbered(names - {name});
      known := rest[name := |names|];
    }
  }

  /** There is a build for every choice of options. */
  lemma BuildExists(options: set<string>) returns (known: Managers)
    requires options <= OPTIONAL
    ensures IsBuild(known) && known.Keys == ALWAYS + options
  {
    hide ALWAYS, OPTIONAL;
    known := Numbered(ALWAYS + options);
  }

  /** Which lines of the shipped list a build recognises: these seven always, the
      X_RDK_WebConfig line never, and the others (OptionalNames) when their option
      is chosen. */
  lemma RecognisedAlways(known: Managers, i: nat)
    requires IsBuild(known) && i in {0, 1, 5, 6, 7, 14, 15}
    ensures |SHIPPED| == 16 && Recognised(SHIPPED[i], known)
  {
    AlwaysNames(i);
    hide SHIPPED, ALWAYS, OPTIONAL;
  }

  lemma AlwaysNames(i: nat)
    requires i in {0, 1, 5, 6, 7, 14, 15}
    ensures |SHIPPED| == 16 && Lower(SHIPPED[i].mgr) in ALWAYS
  {
    assert Lower("deviceMgr") == "devicemgr" && Lower("dsMgr") == "dsmgr" && Lower("telemetryMgr") == "telemetrymgr";
    assert Lower("ethernetMgr") == "ethernetmgr" && Lower("ipMgr") == "ipmgr" && Lower("timeMgr") == "timemgr";
    assert Lower("rdkProfileMgr") == "rdkprofilemgr";
  }

  lemma OptionalNames(i: nat)
    requires i in {2, 3, 4, 8, 9, 10, 11, 12}
    ensures |SHIPPED| == 16 && Lower(SHIPPED[i].mgr) in OPTIONAL
  {
    AreOptional();
    hide OPTIONAL;
    assert Lower("storageSrvcMgr") == "storagesrvcmgr" && Lower("mocaMgr") == "mocamgr" && Lower("xreMgr") == "xremgr";
    assert Lower("wifiMgr") == "wifimgr" && Lower("dhcpv4Mgr") == "dhcpv4mgr" && Lower("ifStackMgr") == "ifstackmgr";
    assert Lower("snmpAdapterMgr") == "snmpadaptermgr";
  }

  lemma AreOptional()
    ensures "storagesrvcmgr" in OPTIONAL && "mocamgr" in OPTIONAL && "xremgr" in OPTIONAL && "wifimgr" in OPTIONAL
    ensures "dhcpv4mgr" in OPTIONAL && "ifstackmgr" in OPTIONAL && "snmpadaptermgr" in OPTIONAL
  {
  }
}
