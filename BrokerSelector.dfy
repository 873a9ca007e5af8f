/**
  * `DefaultBrokerSelector` (src/main/java/org/zbus/broker/ha/DefaultBrokerSelector.java): the
  * HA client's choice of a `SingleBroker` for a hint, a request or a client, by lookups in
  * two tables. A `PriorityEntrySet` is a `TreeSet` ordered by a comparator that is not part
  * of this model; it is given here as the sequence of its entries in that order, so `first()`
  * is the head. `BrokerEntry.PubSub` is not part of this model either and is passed in as
  * `pubSub`.
  */
module BrokerSelector {
  import opened Wrappers

  /** A `SingleBroker` of the broker table, by identity. */
  datatype Broker = Broker(id: nat)

  /** A `BrokerEntry`: the address of the broker that serves the entry and the entry's mode. */
  datatype BrokerEntry = BrokerEntry(broker: Option<string>, mode: Option<string>)

  /** The two tables of the selector: entry sets by entry (MQ) name, brokers by address. */
  datatype Selector = Selector(entryTable: map<string, seq<BrokerEntry>>, brokerTable: map<string, Broker>)

  datatype ClientHint = ClientHint(broker: Option<string>, entry: Option<string>)

  /** The two headers of a request that the selector reads: its broker and its MQ. */
  datatype Request = Request(broker: Option<string>, mq: Option<string>)

  /** `TreeSet.first()` of an empty set, and a `ConcurrentHashMap` looked up with a null key. */
  datatype Failure = NoSuchElement | NullPointer

  /** `getBroker(String)`: no broker for a null address, else the table's broker, if any. */
  function GetBroker(s: Selector, address: Option<string>): (r: Option<Broker>)
    ensures r.Some? <==> address.Some? && address.value in s.brokerTable
    ensures r.Some? ==> r.value == s.brokerTable[address.value]
  {
    if address.None? then None
    else if address.value in s.brokerTable then Some(s.brokerTable[address.value])
    else None
  }

  /** `getBroker(BrokerEntry)`: the entry's address is looked up without a null check. */
  function GetEntryBroker(s: Selector, e: BrokerEntry): (r: Result<Option<Broker>, Failure>)
    ensures r.Err? <==> e.broker.None?
    ensures r.Ok? ==> r.value == GetBroker(s, e.broker)
  {
    if e.broker.None? then Err(NullPointer) else Ok(GetBroker(s, e.broker))
  }

  /** `PriorityEntrySet.getMode`: the mode of the first entry; an empty set has no first. */
  function GetMode(p: seq<BrokerEntry>): (r: Result<Option<string>, Failure>)
    ensures r.Err? <==> p == []
    ensures r.Ok? ==> r.value == p[0].mode
  {
    if p == [] then Err(NoSuchElement) else Ok(p[0].mode)
  }

  /** `selectByClientHint`: the hinted broker, else the broker of the first entry of the
      hinted entry set, else none. */
  function SelectByClientHint(s: Selector, hint: ClientHint): (r: Result<Option<Broker>, Failure>)
    ensures GetBroker(s, hint.broker).Some? ==> r == Ok(GetBroker(s, hint.broker))
    ensures r.Err? <==>
      GetBroker(s, hint.broker).None? && hint.entry.Some? && hint.entry.value in s.entryTable &&
      s.entryTable[hint.entry.value] == []
    ensures r.Err? ==> r.error == NoSuchElement
    ensures GetBroker(s, hint.broker).None? && r.Ok? ==>
      r.value == (if hint.entry.Some? && hint.entry.value in s.entryTable
                  then GetBroker(s, s.entryTable[hint.entry.value][0].broker) else None)
  {
    var broker := GetBroker(s, hint.broker);
    if broker.Some? then Ok(broker)
    else if hint.entry.Some? && hint.entry.value in s.entryTable then
      var p := s.entryTable[hint.entry.value];
      if p == [] then Err(NoSuchElement)
      else Ok(GetBroker(s, p[0].broker))
    else Ok(None)
  }

  /** The `for` loop of `selectByRequestMsg` over a PubSub entry set: the brokers of the
      entries, in order, skipping addresses with no broker; a null address throws. */
  function Collect(s: Selector, p: seq<BrokerEntry>): (r: Result<seq<Broker>, Failure>)
    ensures r.Err? <==> exists i :: 0 <= i < |p| && p[i].broker.None?
    ensures r.Ok? ==> |r.value| <= |p| && forall b :: b in r.value ==> b in s.brokerTable.Values
    ensures r.Ok? ==> forall i :: 0 <= i < |p| && p[i].broker.Some? && p[i].broker.value in s.brokerTable ==>
      s.brokerTable[p[i].broker.value] in r.value
    decreases |p|
  {
    if p == [] then Ok([])
    else
      match GetEntryBroker(s, p[0])
      case Err(f) => Err(f)
      case Ok(b) =>
        match Collect(s, p[1..])
        case Err(f) => Err(f)
        case Ok(rest) =>
          assert forall i :: 1 <= i < |p| ==> p[i] == p[1..][i - 1];
          Ok(if b.Some? then [b.value] + rest else rest)
  }

  /** An entry whose address names a broker of the table. */
  predicate Registered(s: Selector, e: BrokerEntry)
  {
    e.broker.Some? && e.broker.value in s.brokerTable
  }

  /** `r` lists the brokers of the entries of `p` at the strictly increasing indices `idx`,
      and `idx` holds every registered entry. */
  predicate PicksInOrder(s: Selector, p: seq<BrokerEntry>, idx: seq<int>, r: seq<Broker>)
  {
    && |idx| == |r|
    && (forall k :: 0 <= k < |idx| ==>
          0 <= idx[k] < |p| && Registered(s, p[idx[k]]) && r[k] == s.brokerTable[p[idx[k]].broker.value])
    && (forall k, l :: 0 <= k < l < |idx| ==> idx[k] < idx[l])
    && (forall i :: 0 <= i < |p| && Registered(s, p[i]) ==> i in idx)
  }

  /** The list the PubSub loop builds is exactly the brokers of the registered entries, in
      entry order, each once per entry. */
  lemma {:induction false} CollectPicksInOrder(s: Selector, p: seq<BrokerEntry>)
    ensures Collect(s, p).Ok? ==> exists idx :: PicksInOrder(s, p, idx, Collect(s, p).value)
    decreases |p|
  {
    if p == [] {
      assert PicksInOrder(s, p, [], []);
    } else if Collect(s, p).Ok? {
      CollectPicksInOrder(s, p[1..]);
      var rest := Collect(s, p[1..]).value;
      var idx' :| PicksInOrder(s, p[1..], idx', rest);
      if Registered(s, p[0]) {
        var b := s.brokerTable[p[0].broker.value];
        assert Collect(s, p).value == [b] + rest;
        PicksCons(s, p, idx', rest, b);
      } else {
        assert Collect(s, p).value == rest;
        PicksSkip(s, p, idx', rest);
      }
    }
  }

  /** Indices into `p[1..]` as indices into `p`. */
  function Shift(idx: seq<int>): (r: seq<int>)
    ensures |r| == |idx| && forall k :: 0 <= k < |idx| ==> r[k] == idx[k] + 1
  {
    seq(|idx|, k requires 0 <= k < |idx| => idx[k] + 1)
  }

  /** Shifted indices of the tail still cover every registered entry after the head. */
  lemma ShiftCovers(s: Selector, p: seq<BrokerEntry>, idx: seq<int>, rest: seq<Broker>)
    requires p != [] && PicksInOrder(s, p[1..], idx, rest)
    ensures forall i :: 1 <= i < |p| && Registered(s, p[i]) ==> i in Shift(idx)
  {
    forall i | 1 <= i < |p| && Registered(s, p[i])
      ensures i in Shift(idx)
    {
      assert p[1..][i - 1] == p[i];
      var k :| 0 <= k < |idx| && idx[k] == i - 1;
      assert Shift(idx)[k] == i;
    }
  }

  /** An unregistered head adds nothing to the picks of the tail. */
  lemma PicksSkip(s: Selector, p: seq<BrokerEntry>, idx: seq<int>, rest: seq<Broker>)
    requires p != [] && !Registered(s, p[0]) && PicksInOrder(s, p[1..], idx, rest)
    ensures PicksInOrder(s, p, Shift(idx), rest)
  {
    ShiftCovers(s, p, idx, rest);
    forall k | 0 <= k < |idx|
      ensures p[Shift(idx)[k]] == p[1..][idx[k]]
    {
    }
  }

  /** A registered head puts its broker in front of the picks of the tail. */
  lemma PicksCons(s: Selector, p: seq<BrokerEntry>, idx: seq<int>, rest: seq<Broker>, b: Broker)
    requires p != [] && Registered(s, p[0]) && b == s.brokerTable[p[0].broker.value]
    requires PicksInOrder(s, p[1..], idx, rest)
    ensures PicksInOrder(s, p, [0] + Shift(idx), [b] + rest)
  {
    ShiftCovers(s, p, idx, rest);
    var full := [0] + Shift(idx);
    forall k | 1 <= k < |full|
      ensures full[k] == idx[k - 1] + 1 && p[full[k]] == p[1..][idx[k - 1]]
    {
    }
  }

  /** `selectByRequestMsg` as written: the request's broker when known; otherwise the MQ's
      entry set decides. In PubSub mode the loop runs but its list is dropped, so the result
      is none; in other modes the MQ name itself is looked up as a broker address. */
  function SelectByRequest(s: Selector, msg: Request, pubSub: string)
    : (r: Result<Option<seq<Broker>>, Failure>)
    ensures GetBroker(s, msg.broker).Some? ==> r == Ok(Some([GetBroker(s, msg.broker).value]))
    ensures GetBroker(s, msg.broker).None? && msg.mq.None? ==> r == Err(NullPointer)
    ensures (GetBroker(s, msg.broker).None? && msg.mq.Some? &&
             (msg.mq.value !in s.entryTable || s.entryTable[msg.mq.value] == [])) ==> r == Ok(None)
    ensures (GetBroker(s, msg.broker).None? && msg.mq.Some? && msg.mq.value in s.entryTable &&
             s.entryTable[msg.mq.value] != [] && s.entryTable[msg.mq.value][0].mode == Some(pubSub)) ==>
      var c := Collect(s, s.entryTable[msg.mq.value]);
      r == (if c.Err? then Err(c.error) else Ok(None))
    ensures (GetBroker(s, msg.broker).None? && msg.mq.Some? && msg.mq.value in s.entryTable &&
             s.entryTable[msg.mq.value] != [] && s.entryTable[msg.mq.value][0].mode != Some(pubSub)) ==>
      r == Ok(if GetBroker(s, msg.mq).Some? then Some([GetBroker(s, msg.mq).value]) else None)
    ensures r.Ok? && r.value.Some? ==>
      |r.value.value| == 1 && r.value.value[0] in s.brokerTable.Values
  {
    var broker := GetBroker(s, msg.broker);
    if broker.Some? then Ok(Some([broker.value]))
    else if msg.mq.None? then Err(NullPointer)
    else if msg.mq.value !in s.entryTable then Ok(None)
    else
      var p := s.entryTable[msg.mq.value];
      if p == [] then Ok(None)
      else if GetMode(p) == Ok(Some(pubSub)) then
        match Collect(s, p)
        case Err(f) => Err(f)
        case Ok(_) => Ok(None)
      else
        var b := GetBroker(s, msg.mq);
        if b.Some? then Ok(Some([b.value])) else Ok(None)
  }

  /** `selectByRequestMsg` as its PubSub branch evidently means it: the collected list is
      the result. */
  function SelectByRequestIntended(s: Selector, msg: Request, pubSub: string)
    : (r: Result<Option<seq<Broker>>, Failure>)
    ensures (GetBroker(s, msg.broker).None? && msg.mq.Some? && msg.mq.value in s.entryTable &&
             s.entryTable[msg.mq.value] != [] && s.entryTable[msg.mq.value][0].mode == Some(pubSub)) ==>
      r == (match Collect(s, s.entryTable[msg.mq.value])
            case Err(f) => Err(f)
            case Ok(l) => Ok(Some(l)))
    ensures r.Ok? && r.value.Some? ==> forall b :: b in r.value.value ==> b in s.brokerTable.Values
  {
    var broker := GetBroker(s, msg.broker);
    if broker.Some? then Ok(Some([broker.value]))
    else if msg.mq.None? then Err(NullPointer)
    else if msg.mq.value !in s.entryTable then Ok(None)
    else
      var p := s.entryTable[msg.mq.value];
      if p == [] then Ok(None)
      else if GetMode(p) == Ok(Some(pubSub)) then
        match Collect(s, p)
        case Err(f) => Err(f)
        case Ok(l) => Ok(Some(l))
      else
        var b := GetBroker(s, msg.mq);
        if b.Some? then Ok(Some([b.value])) else Ok(None)
  }

  /** A PubSub MQ whose one entry names a registered broker gets no broker as written, and
      that broker when the list is returned. */
  lemma PubSubListIsDropped(address: string, mq: string, pubSub: string, b: Broker)
    requires address != mq
    ensures var s := Selector(map[mq := [BrokerEntry(Some(address), Some(pubSub))]], map[address := b]);
      var msg := Request(None, Some(mq));
      SelectByRequest(s, msg, pubSub) == Ok(None) &&
      SelectByRequestIntended(s, msg, pubSub) == Ok(Some([b]))
  {
    var s := Selector(map[mq := [BrokerEntry(Some(address), Some(pubSub))]], map[address := b]);
    var p := [BrokerEntry(Some(address), Some(pubSub))];
    assert p[1..] == [];
    assert GetEntryBroker(s, p[0]) == Ok(Some(b));
    assert Collect(s, p[1..]) == Ok([]);
    assert [b] + [] == [b];
    assert Collect(s, p) == Ok([b]);
  }

  /** Outside PubSub mode both versions agree. */
  lemma IntendedAgreesOutsidePubSub(s: Selector, msg: Request, pubSub: string)
    requires (msg.mq.Some? && msg.mq.value in s.entryTable && s.entryTable[msg.mq.value] != []) ==>
               s.entryTable[msg.mq.value][0].mode != Some(pubSub)
    ensures SelectByRequestIntended(s, msg, pubSub) == SelectByRequest(s, msg, pubSub)
  {
  }

  /** `selectByClient`: the broker named by the client's `broker` attribute. */
  function SelectByClient(s: Selector, brokerAttr: Option<string>): (r: Option<Broker>)
    ensures brokerAttr.None? ==> r.None?
    ensures brokerAttr.Some? && brokerAttr.value in s.brokerTable ==> r == Some(s.brokerTable[brokerAttr.value])
    ensures r.Some? ==>
      (brokerAttr.Some? && brokerAttr.value in s.brokerTable && r.value == s.brokerTable[brokerAttr.value])
  {
    if brokerAttr.None? then None else GetBroker(s, brokerAttr)
  }

  /** Every selector hands out only brokers of the broker table. */
  lemma SelectionsAreRegistered(s: Selector, hint: ClientHint, msg: Request, pubSub: string,
                                brokerAttr: Option<string>)
    ensures var r := SelectByClientHint(s, hint); r.Ok? && r.value.Some? ==> r.value.value in s.brokerTable.Values
    ensures var r := SelectByRequest(s, msg, pubSub);
      r.Ok? && r.value.Some? ==> forall b :: b in r.value.value ==> b in s.brokerTable.Values
    ensures var r := SelectByClient(s, brokerAttr); r.Some? ==> r.value in s.brokerTable.Values
  {
  }
}
