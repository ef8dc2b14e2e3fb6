/**
 Interface objects and their event handlers (server.cpp, ap_interface_impl.cpp, client_interface_impl.cpp and
 the subscription tables of net/netlink_manager.cpp). Constructors register handlers under the kernel's
 interface index and destructors remove whatever stands under that index.
 */
module Server {
  import opened Bytes

  /** An interface object: its identity and the index it was built for, neither of which ever changes. */
  datatype Iface = Iface(id: nat, index: nat)

  type LiveMap = map<string, Iface>
  type Table = map<nat, Iface>

  /** The live objects by name, and the five tables of per-interface handlers. */
  datatype ServerState = ServerState(
    aps: LiveMap, clients: LiveMap,
    onStationEvent: Table, onChannelSwitchEvent: Table,
    onMlmeEvent: Table, onScanResultReady: Table, onSchedScanResultReady: Table,
    nextId: nat)

  // ---- one kind of object and one of its tables ----

  function Erased(table: Table, index: nat): Table {
    table - {index}
  }

  /** The table after an object was constructed and put under a name, destroying what had that name. */
  function TableAfterCreate(live: LiveMap, table: Table, name: string, obj: Iface): Table {
    var registered := table[obj.index := obj];
    if name in live then Erased(registered, live[name].index) else registered
  }

  function TableAfterTearDown(live: LiveMap, table: Table, name: string): Table {
    if name in live then Erased(table, live[name].index) else table
  }

  function Indices(live: LiveMap): set<nat> {
    set name | name in live :: live[name].index
  }

  ghost predicate IsLive(live: LiveMap, obj: Iface) {
    exists name :: name in live && live[name] == obj
  }

  /** No dangling handler: every entry is a live object, under its own index. */
  ghost predicate Sound(live: LiveMap, table: Table) {
    forall i :: i in table ==> table[i].index == i && IsLive(live, table[i])
  }

  /** The object with this name has its own handler: the entry under its index is this very object. */
  predicate Has(live: LiveMap, table: Table, name: string)
    requires name in live
  {
    live[name].index in table && table[live[name].index] == live[name]
  }

  ghost predicate AllHave(live: LiveMap, table: Table) {
    forall name :: name in live ==> Has(live, table, name)
  }

  lemma {:induction false} CreateKeepsSound(live: LiveMap, table: Table, name: string, obj: Iface)
    requires Sound(live, table)
    ensures Sound(live[name := obj], TableAfterCreate(live, table, name, obj))
  {
    var after := TableAfterCreate(live, table, name, obj);
    forall i | i in after
      ensures after[i].index == i && IsLive(live[name := obj], after[i])
    {
      if i == obj.index {
        assert live[name := obj][name] == after[i];
      } else {
        var n :| n in live && live[n] == table[i];
        assert live[name := obj][n] == after[i];
      }
    }
  }

  lemma {:induction false} TearDownKeepsSound(live: LiveMap, table: Table, name: string)
    requires Sound(live, table)
    ensures Sound(live - {name}, TableAfterTearDown(live, table, name))
  {
    var after := TableAfterTearDown(live, table, name);
    forall i | i in after
      ensures after[i].index == i && IsLive(live - {name}, after[i])
    {
      var n :| n in live && live[n] == table[i];
      assert n != name;
      assert (live - {name})[n] == after[i];
    }
  }

  /**
     Creating takes the handler of another live object exactly when the new object registers under its index, or
     when it replaces an object with its index, whose destructor then removes the entry.
   */
  lemma {:induction false} CreateKeepsOther(live: LiveMap, table: Table, name: string, obj: Iface, other: string)
    requires other in live && other != name && Has(live, table, other) && live[other] != obj
    ensures Has(live[name := obj], TableAfterCreate(live, table, name, obj), other) <==>
            && live[other].index != obj.index
            && (name in live ==> live[other].index != live[name].index)
  {
  }

  /** The new object has its handler exactly when it does not replace an object with the same index. */
  lemma {:induction false} CreateServesNew(live: LiveMap, table: Table, name: string, obj: Iface)
    ensures Has(live[name := obj], TableAfterCreate(live, table, name, obj), name) <==>
            name in live ==> live[name].index != obj.index
  {
  }

  /** Tearing down takes the handler of another live object exactly when the two share an index. */
  lemma {:induction false} TearDownKeepsOther(live: LiveMap, table: Table, name: string, other: string)
    requires other in live && other != name && Has(live, table, other)
    ensures Has(live - {name}, TableAfterTearDown(live, table, name), other) <==>
            name in live ==> live[other].index != live[name].index
  {
  }

  /** No operation on other names gives an object a handler that it did not have. */
  lemma {:induction false} LostForGood(live: LiveMap, table: Table, name: string, obj: Iface, other: string)
    requires other in live && other != name && !Has(live, table, other) && live[other] != obj
    ensures !Has(live[name := obj], TableAfterCreate(live, table, name, obj), other)
    ensures !Has(live - {name}, TableAfterTearDown(live, table, name), other)
  {
  }

  /** Live objects are told apart by identities below `bound`. */
  ghost predicate Identified(live: LiveMap, bound: nat) {
    && (forall n :: n in live ==> live[n].id < bound)
    && (forall m, n :: m in live && n in live && m != n ==> live[m].id != live[n].id)
  }

  ghost predicate DistinctIndices(live: LiveMap) {
    forall m, n :: m in live && n in live && m != n ==> live[m].index != live[n].index
  }

  /**
     From a state in which every live object has its handler, creating keeps it so exactly when no live object,
     including the one it replaces, has the new index.
   */
  lemma {:induction false} CreateServesAll(live: LiveMap, table: Table, name: string, obj: Iface)
    requires AllHave(live, table) && Identified(live, obj.id)
    ensures AllHave(live[name := obj], TableAfterCreate(live, table, name, obj)) <==> obj.index !in Indices(live)
  {
    var live', after := live[name := obj], TableAfterCreate(live, table, name, obj);
    CreateServesNew(live, table, name, obj);
    if obj.index in Indices(live) {
      var n :| n in live && live[n].index == obj.index;
      if n != name {
        CreateKeepsOther(live, table, name, obj, n);
      }
      assert n in live' && !Has(live', after, n);
    } else {
      forall n | n in live'
        ensures Has(live', after, n)
      {
        if n != name {
          CreateKeepsOther(live, table, name, obj, n);
        }
      }
    }
  }

  lemma {:induction false} TearDownServesAll(live: LiveMap, table: Table, name: string, bound: nat)
    requires AllHave(live, table) && Identified(live, bound)
    ensures AllHave(live - {name}, TableAfterTearDown(live, table, name))
  {
    forall n | n in live - {name}
      ensures Has(live - {name}, TableAfterTearDown(live, table, name), n)
    {
      TearDownKeepsOther(live, table, name, n);
    }
  }

  /** Where every entry is live and every live object is served, the entries are exactly the live indices. */
  lemma {:induction false} SoundAndServedIsExact(live: LiveMap, table: Table)
    requires Sound(live, table) && AllHave(live, table)
    ensures table.Keys == Indices(live)
  {
    forall i | i in table
      ensures i in Indices(live)
    {
      var name :| name in live && live[name] == table[i];
      assert live[name].index == i;
    }
    forall i | i in Indices(live)
      ensures i in table
    {
      var name :| name in live && live[name].index == i;
      assert Has(live, table, name);
    }
  }

  // ---- the server ----

  datatype Event =
    | CreateAp(name: string, index: nat)
    | TearDownAp(name: string)
    | CreateClient(name: string, index: nat)
    | TearDownClient(name: string)
    | TearDownAll

  function AfterCreateAp(s: ServerState, name: string, index: nat): ServerState {
    var obj := Iface(s.nextId, index);
    s.(aps := s.aps[name := obj],
       onStationEvent := TableAfterCreate(s.aps, s.onStationEvent, name, obj),
       onChannelSwitchEvent := TableAfterCreate(s.aps, s.onChannelSwitchEvent, name, obj),
       nextId := s.nextId + 1)
  }

  function AfterTearDownAp(s: ServerState, name: string): ServerState {
    s.(aps := s.aps - {name},
       onStationEvent := TableAfterTearDown(s.aps, s.onStationEvent, name),
       onChannelSwitchEvent := TableAfterTearDown(s.aps, s.onChannelSwitchEvent, name))
  }

  function AfterCreateClient(s: ServerState, name: string, index: nat): ServerState {
    var obj := Iface(s.nextId, index);
    s.(clients := s.clients[name := obj],
       onMlmeEvent := TableAfterCreate(s.clients, s.onMlmeEvent, name, obj),
       onScanResultReady := TableAfterCreate(s.clients, s.onScanResultReady, name, obj),
       onSchedScanResultReady := TableAfterCreate(s.clients, s.onSchedScanResultReady, name, obj),
       nextId := s.nextId + 1)
  }

  function AfterTearDownClient(s: ServerState, name: string): ServerState {
    s.(clients := s.clients - {name},
       onMlmeEvent := TableAfterTearDown(s.clients, s.onMlmeEvent, name),
       onScanResultReady := TableAfterTearDown(s.clients, s.onScanResultReady, name),
       onSchedScanResultReady := TableAfterTearDown(s.clients, s.onSchedScanResultReady, name))
  }

  function AfterTearDownAll(s: ServerState): ServerState {
    ServerState(map[], map[],
                s.onStationEvent - Indices(s.aps), s.onChannelSwitchEvent - Indices(s.aps),
                s.onMlmeEvent - Indices(s.clients), s.onScanResultReady - Indices(s.clients),
                s.onSchedScanResultReady - Indices(s.clients), s.nextId)
  }

  function Step(s: ServerState, e: Event): ServerState {
    match e
    case CreateAp(name, index) => AfterCreateAp(s, name, index)
    case TearDownAp(name) => AfterTearDownAp(s, name)
    case CreateClient(name, index) => AfterCreateClient(s, name, index)
    case TearDownClient(name) => AfterTearDownClient(s, name)
    case TearDownAll => AfterTearDownAll(s)
  }

  const EMPTY: ServerState := ServerState(map[], map[], map[], map[], map[], map[], map[], 0)

  function Run(events: seq<Event>): ServerState {
    if events == [] then EMPTY else Step(Run(events[..|events| - 1]), events[|events| - 1])
  }

  ghost predicate AllSound(s: ServerState) {
    && Sound(s.aps, s.onStationEvent) && Sound(s.aps, s.onChannelSwitchEvent)
    && Sound(s.clients, s.onMlmeEvent) && Sound(s.clients, s.onScanResultReady) && Sound(s.clients, s.onSchedScanResultReady)
  }

  /** Every live object has all its handlers. */
  ghost predicate Served(s: ServerState) {
    && AllHave(s.aps, s.onStationEvent) && AllHave(s.aps, s.onChannelSwitchEvent)
    && AllHave(s.clients, s.onMlmeEvent) && AllHave(s.clients, s.onScanResultReady) && AllHave(s.clients, s.onSchedScanResultReady)
  }

  lemma {:induction false} StepKeepsSound(s: ServerState, e: Event)
    requires AllSound(s)
    ensures AllSound(Step(s, e))
  {
    match e
    case CreateAp(name, index) =>
      CreateKeepsSound(s.aps, s.onStationEvent, name, Iface(s.nextId, index));
      CreateKeepsSound(s.aps, s.onChannelSwitchEvent, name, Iface(s.nextId, index));
    case TearDownAp(name) =>
      TearDownKeepsSound(s.aps, s.onStationEvent, name);
      TearDownKeepsSound(s.aps, s.onChannelSwitchEvent, name);
    case CreateClient(name, index) =>
      CreateKeepsSound(s.clients, s.onMlmeEvent, name, Iface(s.nextId, index));
      CreateKeepsSound(s.clients, s.onScanResultReady, name, Iface(s.nextId, index));
      CreateKeepsSound(s.clients, s.onSchedScanResultReady, name, Iface(s.nextId, index));
    case TearDownClient(name) =>
      TearDownKeepsSound(s.clients, s.onMlmeEvent, name);
      TearDownKeepsSound(s.clients, s.onScanResultReady, name);
      TearDownKeepsSound(s.clients, s.onSchedScanResultReady, name);
    case TearDownAll =>
      TearDownAllEmpties(s);
  }

  /** Tearing everything down leaves no per-interface handler at all. */
  lemma {:induction false} TearDownAllEmpties(s: ServerState)
    requires AllSound(s)
    ensures Step(s, TearDownAll) == EMPTY.(nextId := s.nextId)
  {
  }

  /**
     Over any run, with names reused and with several names resolving to one index, no table ever holds a handler
     of an object that is gone.
   */
  lemma {:induction false} NoDanglingHandlers(events: seq<Event>)
    ensures AllSound(Run(events))
  {
    if events != [] {
      NoDanglingHandlers(events[..|events| - 1]);
      StepKeepsSound(Run(events[..|events| - 1]), events[|events| - 1]);
    }
  }

  lemma {:induction false} StepIdentifies(s: ServerState, e: Event)
    requires Identified(s.aps, s.nextId) && Identified(s.clients, s.nextId)
    ensures Identified(Step(s, e).aps, Step(s, e).nextId) && Identified(Step(s, e).clients, Step(s, e).nextId)
  {
  }

  lemma {:induction false} RunIsIdentified(events: seq<Event>)
    ensures Identified(Run(events).aps, Run(events).nextId) && Identified(Run(events).clients, Run(events).nextId)
  {
    if events != [] {
      RunIsIdentified(events[..|events| - 1]);
      StepIdentifies(Run(events[..|events| - 1]), events[|events| - 1]);
    }
  }

  /** The index of a new object is not that of a live object of its kind. */
  predicate HasFreshIndex(s: ServerState, e: Event) {
    match e
    case CreateAp(_, index) => index !in Indices(s.aps)
    case CreateClient(_, index) => index !in Indices(s.clients)
    case _ => true
  }

  /** One step leaves every live object served exactly when its index is fresh; names may be reused. */
  lemma {:induction false} StepServes(s: ServerState, e: Event)
    requires Served(s) && Identified(s.aps, s.nextId) && Identified(s.clients, s.nextId)
    ensures Served(Step(s, e)) <==> HasFreshIndex(s, e)
  {
    match e
    case CreateAp(name, index) =>
      CreateServesAll(s.aps, s.onStationEvent, name, Iface(s.nextId, index));
      CreateServesAll(s.aps, s.onChannelSwitchEvent, name, Iface(s.nextId, index));
    case TearDownAp(name) =>
      TearDownServesAll(s.aps, s.onStationEvent, name, s.nextId);
      TearDownServesAll(s.aps, s.onChannelSwitchEvent, name, s.nextId);
    case CreateClient(name, index) =>
      CreateServesAll(s.clients, s.onMlmeEvent, name, Iface(s.nextId, index));
      CreateServesAll(s.clients, s.onScanResultReady, name, Iface(s.nextId, index));
      CreateServesAll(s.clients, s.onSchedScanResultReady, name, Iface(s.nextId, index));
    case TearDownClient(name) =>
      TearDownServesAll(s.clients, s.onMlmeEvent, name, s.nextId);
      TearDownServesAll(s.clients, s.onScanResultReady, name, s.nextId);
      TearDownServesAll(s.clients, s.onSchedScanResultReady, name, s.nextId);
    case TearDownAll =>
  }

  /** In every state of a run, every live object has all its handlers. */
  ghost predicate AlwaysServed(events: seq<Event>) {
    Served(Run(events)) && (events != [] ==> AlwaysServed(events[..|events| - 1]))
  }

  /** Every creation of a run uses an index that no live object of its kind has. */
  ghost predicate AlwaysFresh(events: seq<Event>) {
    events != [] ==>
      && AlwaysFresh(events[..|events| - 1])
      && HasFreshIndex(Run(events[..|events| - 1]), events[|events| - 1])
  }

  /** Over a whole run, live objects always have their own handlers exactly when no live index is used again. */
  lemma {:induction false} RunServes(events: seq<Event>)
    ensures AlwaysServed(events) <==> AlwaysFresh(events)
  {
    if events != [] {
      var front := events[..|events| - 1];
      RunServes(front);
      RunIsIdentified(front);
      if AlwaysServed(front) {
        StepServes(Run(front), events[|events| - 1]);
      }
    }
  }

  /**
     In a run with fresh indices the five tables hold exactly the indices of the live objects, and the entry of
     each is the object itself.
   */
  lemma {:induction false} DisciplinedRunIsExact(events: seq<Event>)
    requires AlwaysFresh(events)
    ensures var s := Run(events);
            && Served(s) && DistinctIndices(s.aps) && DistinctIndices(s.clients)
            && s.onStationEvent.Keys == s.onChannelSwitchEvent.Keys == Indices(s.aps)
            && s.onMlmeEvent.Keys == s.onScanResultReady.Keys == s.onSchedScanResultReady.Keys == Indices(s.clients)
  {
    RunServes(events);
    NoDanglingHandlers(events);
    RunIsIdentified(events);
    var s := Run(events);
    SoundAndServedIsExact(s.aps, s.onStationEvent);
    SoundAndServedIsExact(s.aps, s.onChannelSwitchEvent);
    SoundAndServedIsExact(s.clients, s.onMlmeEvent);
    SoundAndServedIsExact(s.clients, s.onScanResultReady);
    SoundAndServedIsExact(s.clients, s.onSchedScanResultReady);
  }

  /** Two fresh names that resolve to one index: the second object takes over the handlers of the first. */
  lemma {:induction false} SharedIndexTakesHandlers(first: string, second: string, index: nat)
    requires first != second
    ensures var s := Run([CreateAp(first, index), CreateAp(second, index)]);
            && s.aps == map[first := Iface(0, index), second := Iface(1, index)]
            && s.onStationEvent == map[index := Iface(1, index)]
            && !Has(s.aps, s.onStationEvent, first) && !Has(s.aps, s.onChannelSwitchEvent, first)
  {
    var one := [CreateAp(first, index)];
    var two := [CreateAp(first, index), CreateAp(second, index)];
    assert two[..1] == one && one[..0] == [];
    assert Run(one).aps == map[first := Iface(0, index)];
  }

  /** Creating an interface again under its name and index leaves the new object without any handler. */
  lemma {:induction false} RecreatingLosesHandlers(name: string, index: nat)
    ensures var s := Run([CreateAp(name, index), CreateAp(name, index)]);
            && s.aps == map[name := Iface(1, index)]
            && s.onStationEvent == map[] && s.onChannelSwitchEvent == map[]
  {
    var one := [CreateAp(name, index)];
    var two := [CreateAp(name, index), CreateAp(name, index)];
    assert two[..1] == one && one[..0] == [];
    assert Run(one).aps == map[name := Iface(0, index)];
  }

  // ---- the objects ----

  /** The object now has its handler, and every other index stands as before. */
  ghost predicate Registers(before: Table, after: Table, obj: Iface) {
    && obj.index in after && after[obj.index] == obj
    && (forall i :: i != obj.index ==> (i in after <==> i in before) && (i in before ==> after[i] == before[i]))
  }

  /** Nothing stands under the index any more, and every other index stands as before. */
  ghost predicate Unregisters(before: Table, after: Table, index: nat) {
    && index !in after
    && (forall i :: i != index ==> (i in after <==> i in before) && (i in before ==> after[i] == before[i]))
  }

  lemma {:induction false} RegistersIs(before: Table, after: Table, obj: Iface)
    requires Registers(before, after, obj)
    ensures after == before[obj.index := obj]
  {
  }

  lemma {:induction false} UnregistersIs(before: Table, after: Table, index: nat)
    requires Unregisters(before, after, index)
    ensures after == Erased(before, index)
  {
  }

  datatype InterfaceInfo = InterfaceInfo(index: nat, name: string)

  predicate StartsWith(s: string, prefix: string) {
    prefix <= s
  }

  predicate IsUsable(info: InterfaceInfo) {
    info.name != "p2p0" && !StartsWith(info.name, "aware_data")
  }

  lemma {:induction false} UsableIsOrdinary(info: InterfaceInfo)
    ensures IsUsable(info) <==> IsOrdinary(info)
  {
    if |info.name| >= 10 {
      assert "aware_data" <= info.name <==> info.name[..10] == "aware_data";
    }
  }

  function FirstNamed(infos: seq<InterfaceInfo>, name: string): Option<InterfaceInfo> {
    if infos == [] then None else if infos[0].name == name then Some(infos[0]) else FirstNamed(infos[1..], name)
  }

  function FirstUsable(infos: seq<InterfaceInfo>): Option<InterfaceInfo> {
    if infos == [] then None else if IsUsable(infos[0]) then Some(infos[0]) else FirstUsable(infos[1..])
  }

  /** The interface with the name, or else the first one that is usable at all; none without a listing. */
  function Chosen(listing: Option<seq<InterfaceInfo>>, name: string): Option<InterfaceInfo> {
    match listing
    case None => None
    case Some(infos) => if FirstNamed(infos, name).Some? then FirstNamed(infos, name) else FirstUsable(infos)
  }

  /** The entry at `i` is the first with the name. */
  ghost predicate IsFirstNamed(infos: seq<InterfaceInfo>, name: string, i: nat) {
    i < |infos| && infos[i].name == name && forall j :: 0 <= j < i ==> infos[j].name != name
  }

  /** It is neither the peer-to-peer interface nor one of the aware interfaces. */
  predicate IsOrdinary(info: InterfaceInfo) {
    info.name != "p2p0" && (|info.name| < 10 || info.name[..10] != "aware_data")
  }

  ghost predicate IsFirstOrdinary(infos: seq<InterfaceInfo>, i: nat) {
    i < |infos| && IsOrdinary(infos[i]) && forall j :: 0 <= j < i ==> !IsOrdinary(infos[j])
  }

  lemma {:induction false} FirstNamedIs(infos: seq<InterfaceInfo>, name: string) returns (i: nat)
    ensures match FirstNamed(infos, name)
            case None => i == |infos| && forall j :: 0 <= j < |infos| ==> infos[j].name != name
            case Some(info) => IsFirstNamed(infos, name, i) && info == infos[i]
  {
    if infos == [] || infos[0].name == name {
      i := 0;
    } else {
      var k := FirstNamedIs(infos[1..], name);
      i := k + 1;
      assert forall j :: 1 <= j < |infos| ==> infos[j] == infos[1..][j - 1];
    }
  }

  lemma {:induction false} FirstUsableIs(infos: seq<InterfaceInfo>) returns (i: nat)
    ensures match FirstUsable(infos)
            case None => i == |infos| && forall j :: 0 <= j < |infos| ==> !IsOrdinary(infos[j])
            case Some(info) => IsFirstOrdinary(infos, i) && info == infos[i]
  {
    if infos != [] {
      UsableIsOrdinary(infos[0]);
    }
    if infos == [] || IsUsable(infos[0]) {
      i := 0;
    } else {
      var k := FirstUsableIs(infos[1..]);
      i := k + 1;
      assert forall j :: 1 <= j < |infos| ==> infos[j] == infos[1..][j - 1];
    }
  }

  /**
   Which interface is chosen: the first with the name; if none has it, the first that is neither "p2p0" nor one of the
   "aware_data" interfaces; if there is no such one either, or no listing, none.
   */
  ghost predicate IsChosen(listing: Option<seq<InterfaceInfo>>, name: string, found: Option<InterfaceInfo>) {
    match listing
    case None => found == None
    case Some(infos) =>
      if exists i :: 0 <= i < |infos| && infos[i].name == name then
        exists i: nat :: IsFirstNamed(infos, name, i) && found == Some(infos[i])
      else if exists i :: 0 <= i < |infos| && IsOrdinary(infos[i]) then
        exists i: nat :: IsFirstOrdinary(infos, i) && found == Some(infos[i])
      else found == None
  }

  lemma {:induction false} ChosenIsFirst(listing: Option<seq<InterfaceInfo>>, name: string)
    ensures IsChosen(listing, name, Chosen(listing, name))
  {
    if listing.Some? {
      var i := FirstNamedIs(listing.value, name);
      var j := FirstUsableIs(listing.value);
      if FirstNamed(listing.value, name).Some? {
        assert IsFirstNamed(listing.value, name, i);
      } else if FirstUsable(listing.value).Some? {
        assert IsFirstOrdinary(listing.value, j);
      }
    }
  }

  class Server {
    var apInterfaces: LiveMap
    var clientInterfaces: LiveMap
    var onStationEvent: Table
    var onChannelSwitchEvent: Table
    var onMlmeEvent: Table
    var onScanResultReady: Table
    var onSchedScanResultReady: Table
    var nextId: nat

    constructor ()
      ensures Current() == EMPTY
    {
      apInterfaces, clientInterfaces, nextId := map[], map[], 0;
      onStationEvent, onChannelSwitchEvent := map[], map[];
      onMlmeEvent, onScanResultReady, onSchedScanResultReady := map[], map[], map[];
    }

    function Current(): ServerState
      reads this
    {
      ServerState(apInterfaces, clientInterfaces, onStationEvent, onChannelSwitchEvent,
                  onMlmeEvent, onScanResultReady, onSchedScanResultReady, nextId)
    }

    /** The constructor of an AP interface: a new object, whose two handlers stand under its index. */
    method NewApInterface(index: nat) returns (obj: Iface)
      modifies this`nextId, this`onStationEvent, this`onChannelSwitchEvent
      ensures obj == Iface(old(nextId), index) && nextId == old(nextId) + 1
      ensures Registers(old(onStationEvent), onStationEvent, obj)
      ensures Registers(old(onChannelSwitchEvent), onChannelSwitchEvent, obj)
    {
      obj := Iface(nextId, index);
      nextId := nextId + 1;
      onStationEvent := onStationEvent[index := obj];
      onChannelSwitchEvent := onChannelSwitchEvent[index := obj];
    }

    /** The destructor of an AP interface, which removes whatever stands under its index. */
    method DestroyApInterface(obj: Iface)
      modifies this`onStationEvent, this`onChannelSwitchEvent
      ensures Unregisters(old(onStationEvent), onStationEvent, obj.index)
      ensures Unregisters(old(onChannelSwitchEvent), onChannelSwitchEvent, obj.index)
    {
      onStationEvent := Erased(onStationEvent, obj.index);
      onChannelSwitchEvent := Erased(onChannelSwitchEvent, obj.index);
    }

    /** The constructor of a client interface, with that of its scanner: three handlers stand under its index. */
    method NewClientInterface(index: nat) returns (obj: Iface)
      modifies this`nextId, this`onMlmeEvent, this`onScanResultReady, this`onSchedScanResultReady
      ensures obj == Iface(old(nextId), index) && nextId == old(nextId) + 1
      ensures Registers(old(onMlmeEvent), onMlmeEvent, obj)
      ensures Registers(old(onScanResultReady), onScanResultReady, obj)
      ensures Registers(old(onSchedScanResultReady), onSchedScanResultReady, obj)
    {
      obj := Iface(nextId, index);
      nextId := nextId + 1;
      onMlmeEvent := onMlmeEvent[index := obj];
      onScanResultReady := onScanResultReady[index := obj];
      onSchedScanResultReady := onSchedScanResultReady[index := obj];
    }

    /** The destructor of a client interface, which invalidates its scanner. */
    method DestroyClientInterface(obj: Iface)
      modifies this`onMlmeEvent, this`onScanResultReady, this`onSchedScanResultReady
      ensures Unregisters(old(onMlmeEvent), onMlmeEvent, obj.index)
      ensures Unregisters(old(onScanResultReady), onScanResultReady, obj.index)
      ensures Unregisters(old(onSchedScanResultReady), onSchedScanResultReady, obj.index)
    {
      onScanResultReady := Erased(onScanResultReady, obj.index);
      onSchedScanResultReady := Erased(onSchedScanResultReady, obj.index);
      onMlmeEvent := Erased(onMlmeEvent, obj.index);
    }

    method SetupInterface(listing: Option<seq<InterfaceInfo>>, name: string) returns (found: Option<InterfaceInfo>)
      ensures found == Chosen(listing, name) && IsChosen(listing, name, found)
    {
      ChosenIsFirst(listing, name);
      if listing == None {
        return None;
      }
      var interfaces := listing.value;
      for i := 0 to |interfaces|
        invariant FirstNamed(interfaces, name) == FirstNamed(interfaces[i..], name)
      {
        assert interfaces[i..][0] == interfaces[i] && interfaces[i..][1..] == interfaces[i + 1..];
        if interfaces[i].name == name {
          return Some(interfaces[i]);
        }
      }
      for i := 0 to |interfaces|
        invariant FirstUsable(interfaces) == FirstUsable(interfaces[i..])
      {
        assert interfaces[i..][0] == interfaces[i] && interfaces[i..][1..] == interfaces[i + 1..];
        if interfaces[i].name != "p2p0" && !StartsWith(interfaces[i].name, "aware_data") {
          return Some(interfaces[i]);
        }
      }
      return None;
    }

    /** Succeeds exactly if the listing offers an interface, and then for that interface's index. */
    method CreateApInterface(name: string, listing: Option<seq<InterfaceInfo>>) returns (created: Option<Iface>)
      modifies this
      ensures created.Some? <==> Chosen(listing, name).Some?
      ensures created == None ==> Current() == old(Current())
      ensures created.Some? ==>
                && created.value == Iface(old(nextId), Chosen(listing, name).value.index)
                && Current() == Step(old(Current()), CreateAp(name, Chosen(listing, name).value.index))
    {
      var info := SetupInterface(listing, name);
      if info == None {
        return None;
      }
      var obj := NewApInterface(info.value.index);
      RegistersIs(old(onStationEvent), onStationEvent, obj);
      RegistersIs(old(onChannelSwitchEvent), onChannelSwitchEvent, obj);
      if name in apInterfaces {
        var replaced := apInterfaces[name];
        apInterfaces := apInterfaces[name := obj];
        ghost var registered := Current();
        DestroyApInterface(replaced);
        UnregistersIs(registered.onStationEvent, onStationEvent, replaced.index);
        UnregistersIs(registered.onChannelSwitchEvent, onChannelSwitchEvent, replaced.index);
      } else {
        apInterfaces := apInterfaces[name := obj];
      }
      return Some(obj);
    }

    method TearDownApInterface(name: string) returns (success: bool)
      modifies this
      ensures success == (name in old(apInterfaces))
      ensures Current() == Step(old(Current()), TearDownAp(name))
    {
      if name in apInterfaces {
        RemoveApInterface(name);
        return true;
      }
      assert apInterfaces - {name} == apInterfaces;
      return false;
    }

    /** Succeeds exactly if the listing offers an interface, and then for that interface's index. */
    method CreateClientInterface(name: string, listing: Option<seq<InterfaceInfo>>) returns (created: Option<Iface>)
      modifies this
      ensures created.Some? <==> Chosen(listing, name).Some?
      ensures created == None ==> Current() == old(Current())
      ensures created.Some? ==>
                && created.value == Iface(old(nextId), Chosen(listing, name).value.index)
                && Current() == Step(old(Current()), CreateClient(name, Chosen(listing, name).value.index))
    {
      var info := SetupInterface(listing, name);
      if info == None {
        return None;
      }
      var obj := NewClientInterface(info.value.index);
      RegistersIs(old(onMlmeEvent), onMlmeEvent, obj);
      RegistersIs(old(onScanResultReady), onScanResultReady, obj);
      RegistersIs(old(onSchedScanResultReady), onSchedScanResultReady, obj);
      if name in clientInterfaces {
        var replaced := clientInterfaces[name];
        clientInterfaces := clientInterfaces[name := obj];
        ghost var registered := Current();
        DestroyClientInterface(replaced);
        UnregistersIs(registered.onMlmeEvent, onMlmeEvent, replaced.index);
        UnregistersIs(registered.onScanResultReady, onScanResultReady, replaced.index);
        UnregistersIs(registered.onSchedScanResultReady, onSchedScanResultReady, replaced.index);
      } else {
        clientInterfaces := clientInterfaces[name := obj];
      }
      return Some(obj);
    }

    method TearDownClientInterface(name: string) returns (success: bool)
      modifies this
      ensures success == (name in old(clientInterfaces))
      ensures Current() == Step(old(Current()), TearDownClient(name))
    {
      if name in clientInterfaces {
        RemoveClientInterface(name);
        return true;
      }
      assert clientInterfaces - {name} == clientInterfaces;
      return false;
    }

    /** Removes a client interface from its map, which destroys it. */
    method RemoveClientInterface(name: string)
      requires name in clientInterfaces
      modifies this`clientInterfaces, this`onMlmeEvent, this`onScanResultReady, this`onSchedScanResultReady
      ensures clientInterfaces == old(clientInterfaces) - {name}
      ensures onMlmeEvent == Erased(old(onMlmeEvent), old(clientInterfaces)[name].index)
      ensures onScanResultReady == Erased(old(onScanResultReady), old(clientInterfaces)[name].index)
      ensures onSchedScanResultReady == Erased(old(onSchedScanResultReady), old(clientInterfaces)[name].index)
    {
      var obj := clientInterfaces[name];
      clientInterfaces := clientInterfaces - {name};
      DestroyClientInterface(obj);
      UnregistersIs(old(onMlmeEvent), onMlmeEvent, obj.index);
      UnregistersIs(old(onScanResultReady), onScanResultReady, obj.index);
      UnregistersIs(old(onSchedScanResultReady), onSchedScanResultReady, obj.index);
    }

    /** Destroys all client interfaces, as clearing their map does. */
    method ClearClientInterfaces()
      modifies this`clientInterfaces, this`onMlmeEvent, this`onScanResultReady, this`onSchedScanResultReady
      ensures clientInterfaces == map[]
      ensures onMlmeEvent == old(onMlmeEvent) - Indices(old(clientInterfaces))
      ensures onScanResultReady == old(onScanResultReady) - Indices(old(clientInterfaces))
      ensures onSchedScanResultReady == old(onSchedScanResultReady) - Indices(old(clientInterfaces))
    {
      ghost var erased: set<nat> := {};
      while clientInterfaces != map[]
        invariant erased + Indices(clientInterfaces) == Indices(old(clientInterfaces))
        invariant onMlmeEvent == old(onMlmeEvent) - erased
        invariant onScanResultReady == old(onScanResultReady) - erased
        invariant onSchedScanResultReady == old(onSchedScanResultReady) - erased
        decreases |clientInterfaces|
      {
        var name :| name in clientInterfaces;
        ghost var index := clientInterfaces[name].index;
        RemovedIndices(clientInterfaces, name, erased);
        ErasedTwice(old(onMlmeEvent), erased, index);
        ErasedTwice(old(onScanResultReady), erased, index);
        ErasedTwice(old(onSchedScanResultReady), erased, index);
        RemoveClientInterface(name);
        erased := erased + {index};
      }
      assert erased == Indices(old(clientInterfaces));
    }

    /** Removes an AP interface from its map, which destroys it. */
    method RemoveApInterface(name: string)
      requires name in apInterfaces
      modifies this`apInterfaces, this`onStationEvent, this`onChannelSwitchEvent
      ensures apInterfaces == old(apInterfaces) - {name}
      ensures onStationEvent == Erased(old(onStationEvent), old(apInterfaces)[name].index)
      ensures onChannelSwitchEvent == Erased(old(onChannelSwitchEvent), old(apInterfaces)[name].index)
    {
      var obj := apInterfaces[name];
      apInterfaces := apInterfaces - {name};
      DestroyApInterface(obj);
      UnregistersIs(old(onStationEvent), onStationEvent, obj.index);
      UnregistersIs(old(onChannelSwitchEvent), onChannelSwitchEvent, obj.index);
    }

    /** Destroys all AP interfaces, as clearing their map does. */
    method ClearApInterfaces()
      modifies this`apInterfaces, this`onStationEvent, this`onChannelSwitchEvent
      ensures apInterfaces == map[]
      ensures onStationEvent == old(onStationEvent) - Indices(old(apInterfaces))
      ensures onChannelSwitchEvent == old(onChannelSwitchEvent) - Indices(old(apInterfaces))
    {
      ghost var erased: set<nat> := {};
      while apInterfaces != map[]
        invariant erased + Indices(apInterfaces) == Indices(old(apInterfaces))
        invariant onStationEvent == old(onStationEvent) - erased
        invariant onChannelSwitchEvent == old(onChannelSwitchEvent) - erased
        decreases |apInterfaces|
      {
        var name :| name in apInterfaces;
        ghost var index := apInterfaces[name].index;
        RemovedIndices(apInterfaces, name, erased);
        ErasedTwice(old(onStationEvent), erased, index);
        ErasedTwice(old(onChannelSwitchEvent), erased, index);
        RemoveApInterface(name);
        erased := erased + {index};
      }
      assert erased == Indices(old(apInterfaces));
    }

    method TearDownInterfaces()
      modifies this
      ensures Current() == Step(old(Current()), TearDownAll)
    {
      ClearClientInterfaces();
      ClearApInterfaces();
    }
  }

  lemma {:induction false} RemovedIndices(live: LiveMap, name: string, erased: set<nat>)
    requires name in live
    ensures erased + Indices(live) == (erased + {live[name].index}) + Indices(live - {name})
    ensures |live - {name}| < |live|
  {
    forall i | i in Indices(live)
      ensures i in Indices(live - {name}) + {live[name].index}
    {
      var n :| n in live && live[n].index == i;
      if n != name {
        assert n in live - {name} && (live - {name})[n].index == i;
      }
    }
    assert live.Keys == (live - {name}).Keys + {name};
  }

  lemma {:induction false} ErasedTwice(table: Table, erased: set<nat>, index: nat)
    ensures Erased(table - erased, index) == table - (erased + {index})
  {
  }
}
