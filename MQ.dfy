/** The load-balancing message queue of the old broker: consumers park pull requests in a FIFO,
    producers' messages wait in another FIFO, and `dispatch` pairs the two heads, one message
    per pull. */
module ServerMq {
  import opened Wrappers

  /** A client connection, identified by its id. */
  datatype Session = Session(id: string)

  /** The parts of a message the queue looks at; the body is dropped on delivery. */
  datatype Message = Message(
    id: Option<string>, rawId: Option<string>, status: Option<int>,
    headers: map<string, string>, body: Option<seq<char>>)

  /** A parked consumer request: the session and the pull message it sent. */
  datatype Pull = Pull(session: Session, msg: Message)

  /** One write to a consumer's session: the pull served, the queued message and the copy sent. */
  datatype Delivery = Delivery(pull: Pull, original: Message, written: Message)

  /** What a run of `dispatch` leaves behind: the queues, the writes it made in order, and
      whether it took any message off `msgQ` (which stamps `lastUpdateTime`). */
  datatype Round = Round(pulls: seq<Pull>, msgs: seq<Message>, out: seq<Delivery>, polled: bool)

  datatype ConsumerInfo = ConsumerInfo(sessionId: string)

  datatype MqInfo = MqInfo(
    name: string, lastUpdateTime: int, creator: string, mode: int,
    unconsumedMsgCount: nat, consumerCount: nat, consumerInfoList: seq<ConsumerInfo>)

  /** The copy of `msg` written to the consumer that sent `pullMsg`. `Message.copyWithoutBody` is
      not part of this model; it is taken to keep the headers and status and drop the body. */
  function DeliveredCopy(msg: Message, pullMsg: Message): (w: Message)
    ensures w.rawId == msg.id && w.id == pullMsg.id
    ensures w.status == (if msg.status.None? then Some(200) else msg.status)
    ensures w.headers == msg.headers && w.body.None?
  {
    Message(pullMsg.id, msg.id, if msg.status.None? then Some(200) else msg.status, msg.headers, None)
  }

  /** The `dispatch` loop as a function of the two queues, the sessions that are open and the
      sessions whose write fails. */
  function DispatchFrom(pulls: seq<Pull>, msgs: seq<Message>, active: set<string>, broken: set<string>): (r: Round)
    ensures |r.msgs| + |r.out| == |msgs|
    ensures !r.polled ==> r.msgs == msgs && r.out == []
    decreases |pulls|
  {
    if pulls == [] || msgs == [] then Round(pulls, msgs, [], false)
    else
      var p := pulls[0];
      if p.session.id !in active then DispatchFrom(pulls[1..], msgs, active, broken)
      else
        var m := msgs[0];
        if p.session.id in broken then
          var r := DispatchFrom(pulls[1..], msgs[1..] + [m], active, broken);
          r.(polled := true)
        else
          var r := DispatchFrom(pulls[1..], msgs[1..], active, broken);
          Round(r.pulls, r.msgs, [Delivery(p, m, DeliveredCopy(m, p.msg))] + r.out, true)
  }

  /** The queued messages that were delivered. */
  function Originals(out: seq<Delivery>): multiset<Message>
  {
    if out == [] then multiset{} else multiset{out[0].original} + Originals(out[1..])
  }

  /** `dispatch` stops only when one queue is empty, and it takes pulls off the head only. */
  lemma {:induction false} DispatchDrains(pulls: seq<Pull>, msgs: seq<Message>, active: set<string>, broken: set<string>)
    ensures var r := DispatchFrom(pulls, msgs, active, broken);
      (r.pulls == [] || r.msgs == []) && |r.pulls| <= |pulls| && r.pulls == pulls[|pulls| - |r.pulls|..]
  {
    if pulls != [] && msgs != [] {
      var p := pulls[0];
      if p.session.id !in active {
        DispatchDrains(pulls[1..], msgs, active, broken);
      } else if p.session.id in broken {
        DispatchDrains(pulls[1..], msgs[1..] + [msgs[0]], active, broken);
      } else {
        DispatchDrains(pulls[1..], msgs[1..], active, broken);
      }
    }
  }

  /** No message is lost or duplicated: every message is either still queued or delivered once. */
  lemma {:induction false} DispatchConserves(pulls: seq<Pull>, msgs: seq<Message>, active: set<string>, broken: set<string>)
    ensures var r := DispatchFrom(pulls, msgs, active, broken);
      multiset(r.msgs) + Originals(r.out) == multiset(msgs)
  {
    if pulls != [] && msgs != [] {
      var p, m := pulls[0], msgs[0];
      assert msgs == [m] + msgs[1..];
      if p.session.id !in active {
        DispatchConserves(pulls[1..], msgs, active, broken);
      } else if p.session.id in broken {
        DispatchConserves(pulls[1..], msgs[1..] + [m], active, broken);
      } else {
        DispatchConserves(pulls[1..], msgs[1..], active, broken);
        var r := DispatchFrom(pulls[1..], msgs[1..], active, broken);
        var out := [Delivery(p, m, DeliveredCopy(m, p.msg))] + r.out;
        assert out[1..] == r.out;
      }
    }
  }

  /** Every write goes to an open session whose write succeeds, serves a pull that was queued,
      and carries that pull's id. */
  lemma {:induction false} DispatchDeliversToActive(pulls: seq<Pull>, msgs: seq<Message>, active: set<string>, broken: set<string>)
    ensures var r := DispatchFrom(pulls, msgs, active, broken);
      forall d :: d in r.out ==>
        d.pull in pulls && d.pull.session.id in active && d.pull.session.id !in broken &&
        d.written == DeliveredCopy(d.original, d.pull.msg) && d.written.id == d.pull.msg.id
  {
    if pulls != [] && msgs != [] {
      var p := pulls[0];
      if p.session.id !in active {
        DispatchDeliversToActive(pulls[1..], msgs, active, broken);
      } else if p.session.id in broken {
        DispatchDeliversToActive(pulls[1..], msgs[1..] + [msgs[0]], active, broken);
      } else {
        DispatchDeliversToActive(pulls[1..], msgs[1..], active, broken);
      }
    }
  }

  /** Pulls of closed sessions are thrown away without taking a message. */
  lemma {:induction false} DispatchSkipsInactive(pulls: seq<Pull>, msgs: seq<Message>, active: set<string>, broken: set<string>)
    requires forall p :: p in pulls ==> p.session.id !in active
    ensures var r := DispatchFrom(pulls, msgs, active, broken);
      r.msgs == msgs && r.out == [] && !r.polled && (msgs != [] ==> r.pulls == [])
  {
    if pulls != [] && msgs != [] {
      assert pulls[0] in pulls;
      DispatchSkipsInactive(pulls[1..], msgs, active, broken);
    }
  }

  /** One step of the loop: a pull whose session is closed is dropped, whatever follows it,
      and the same messages go on to the rest of the pulls. */
  lemma SkipInactiveStep(p: Pull, rest: seq<Pull>, msgs: seq<Message>, active: set<string>, broken: set<string>)
    requires p.session.id !in active && msgs != []
    ensures DispatchFrom([p] + rest, msgs, active, broken) == DispatchFrom(rest, msgs, active, broken)
  {
    assert ([p] + rest)[1..] == rest;
  }

  /** A failed write puts the message back at the tail of `msgQ` and drops the pull. */
  lemma FailedWriteRequeues(p: Pull, rest: seq<Pull>, msgs: seq<Message>, active: set<string>, broken: set<string>)
    requires p.session.id in active && p.session.id in broken && msgs != []
    ensures var r := DispatchFrom([p] + rest, msgs, active, broken);
      r.polled && r == DispatchFrom(rest, msgs[1..] + [msgs[0]], active, broken).(polled := true)
  {
    assert ([p] + rest)[1..] == rest;
  }

  /** At most one parked pull per session. */
  ghost predicate OnePullPerSession(q: seq<Pull>)
  {
    forall i, j :: 0 <= i < j < |q| ==> q[i].session != q[j].session
  }

  /** The position of the first pull of `s` in `q`. */
  function PullOf(q: seq<Pull>, s: Session): (r: Option<nat>)
    ensures r.Some? ==> r.value < |q| && q[r.value].session == s
    ensures r.Some? ==> forall j :: 0 <= j < r.value ==> q[j].session != s
    ensures r.None? ==> forall j :: 0 <= j < |q| ==> q[j].session != s
  {
    if q == [] then None
    else if q[0].session == s then Some(0)
    else match PullOf(q[1..], s)
      case None => None
      case Some(k) => Some(k + 1)
  }

  /** `pullQ` after `consume(msg, s)` registers its pull: the session's pull message is replaced
      when it has one, else a new pull joins the tail. */
  function Requested(q: seq<Pull>, s: Session, msg: Message): seq<Pull>
  {
    match PullOf(q, s)
    case Some(i) => q[i := Pull(s, msg)]
    case None => q + [Pull(s, msg)]
  }

  lemma RequestedKeepsOnePull(q: seq<Pull>, s: Session, msg: Message)
    requires OnePullPerSession(q)
    ensures var r := Requested(q, s, msg);
      OnePullPerSession(r) && Pull(s, msg) in r &&
      |r| == (if PullOf(q, s).Some? then |q| else |q| + 1) &&
      forall i :: 0 <= i < |q| && q[i].session != s ==> r[i] == q[i]
  {
    var r := Requested(q, s, msg);
    match PullOf(q, s)
    case Some(i) =>
      assert r[i] == Pull(s, msg);
      forall a, b | 0 <= a < b < |r| ensures r[a].session != r[b].session {
        assert a != i ==> r[a] == q[a];
        assert b != i ==> r[b] == q[b];
      }
    case None =>
      assert r[|q|] == Pull(s, msg);
  }

  /** `pullQ` after `cleanSession(s)`: the first pull of `s` is taken out. */
  function WithoutPullOf(q: seq<Pull>, s: Session): seq<Pull>
  {
    match PullOf(q, s)
    case Some(i) => q[..i] + q[i + 1..]
    case None => q
  }

  /** Taking out position `i` shifts the later entries down by one. */
  lemma RemovedAt(q: seq<Pull>, i: nat)
    requires i < |q|
    ensures var r := q[..i] + q[i + 1..];
      |r| == |q| - 1 && forall k :: 0 <= k < |r| ==> r[k] == if k < i then q[k] else q[k + 1]
  {
  }

  lemma WithoutPullOfRemovesSession(q: seq<Pull>, s: Session)
    requires OnePullPerSession(q)
    ensures var r := WithoutPullOf(q, s);
      OnePullPerSession(r) && (forall p :: p in r ==> p.session != s && p in q) &&
      forall p :: p in q && p.session != s ==> p in r
  {
    match PullOf(q, s)
    case Some(i) =>
      RemovedKeepsOthers(q, i);
      RemovedKeepsOnePull(q, i);
    case None =>
  }

  lemma RemovedKeepsOthers(q: seq<Pull>, i: nat)
    requires i < |q| && OnePullPerSession(q)
    ensures var r := q[..i] + q[i + 1..];
      (forall p :: p in r ==> p.session != q[i].session && p in q) &&
      forall p :: p in q && p.session != q[i].session ==> p in r
  {
    var r := q[..i] + q[i + 1..];
    RemovedAt(q, i);
    forall p | p in r ensures p.session != q[i].session && p in q {
      var k :| 0 <= k < |r| && r[k] == p;
      var k' := if k < i then k else k + 1;
      assert r[k] == q[k'] && k' != i;
    }
    forall p | p in q && p.session != q[i].session ensures p in r {
      var k :| 0 <= k < |q| && q[k] == p;
      assert k != i;
      assert r[if k < i then k else k - 1] == p;
    }
  }

  lemma RemovedKeepsOnePull(q: seq<Pull>, i: nat)
    requires i < |q| && OnePullPerSession(q)
    ensures OnePullPerSession(q[..i] + q[i + 1..])
  {
    var r := q[..i] + q[i + 1..];
    RemovedAt(q, i);
    forall a, b | 0 <= a < b < |r| ensures r[a].session != r[b].session {
      var a', b' := if a < i then a else a + 1, if b < i then b else b + 1;
      assert r[a] == q[a'] && r[b] == q[b'];
    }
  }

  lemma TailKeepsOnePull(q: seq<Pull>)
    requires q != [] && OnePullPerSession(q)
    ensures OnePullPerSession(q[1..]) && forall p :: p in q[1..] ==> p in q
  {
    assert forall i :: 0 <= i < |q| - 1 ==> q[1..][i] == q[i + 1];
  }

  /** The pulls `cleanSession()` keeps: those of open sessions, in order. */
  function ActivePulls(q: seq<Pull>, active: set<string>): (r: seq<Pull>)
  {
    if q == [] then []
    else ActivePulls(q[..|q| - 1], active) + (if q[|q| - 1].session.id in active then [q[|q| - 1]] else [])
  }

  /** The session ids `cleanSession()` drops from `pullSessions`. */
  function InactiveIds(q: seq<Pull>, active: set<string>): set<string>
  {
    if q == [] then {}
    else InactiveIds(q[..|q| - 1], active) + (if q[|q| - 1].session.id in active then {} else {q[|q| - 1].session.id})
  }

  lemma {:induction false} ActivePullsFilter(q: seq<Pull>, active: set<string>)
    ensures var r := ActivePulls(q, active);
      |r| <= |q| && forall p :: p in r <==> p in q && p.session.id in active
  {
    if q != [] {
      var pre := q[..|q| - 1];
      ActivePullsFilter(pre, active);
      assert q == pre + [q[|q| - 1]];
    }
  }

  lemma {:induction false} InactiveIdsOf(q: seq<Pull>, active: set<string>)
    ensures forall id :: id in InactiveIds(q, active) <==>
      id !in active && exists p :: p in q && p.session.id == id
  {
    if q != [] {
      var pre := q[..|q| - 1];
      InactiveIdsOf(pre, active);
      assert q == pre + [q[|q| - 1]];
    }
  }

  /** An order-preserving filter keeps "one pull per session". */
  lemma {:induction false} ActivePullsKeepsOnePull(q: seq<Pull>, active: set<string>)
    requires OnePullPerSession(q)
    ensures OnePullPerSession(ActivePulls(q, active))
  {
    if q != [] {
      var pre, last := q[..|q| - 1], q[|q| - 1];
      assert OnePullPerSession(pre);
      ActivePullsKeepsOnePull(pre, active);
      ActivePullsFilter(pre, active);
      var r := ActivePulls(pre, active);
      forall p | p in r ensures p.session != last.session {
        var k :| 0 <= k < |pre| && pre[k] == p;
      }
    }
  }

  class MQ {
    const name: string
    const creator: string
    const mode: int
    var pullSessions: map<string, Session>
    var pullQ: seq<Pull>
    var msgQ: seq<Message>
    var lastUpdateTime: int
    /** The messages written to consumer sessions, in order. */
    var sent: seq<Delivery>

    ghost predicate Valid()
      reads this
    {
      OnePullPerSession(pullQ) &&
      (forall p :: p in pullQ ==> p.session.id in pullSessions) &&
      forall k :: k in pullSessions ==> pullSessions[k].id == k
    }

    constructor (name: string, creator: string, mode: int, msgQ: seq<Message>)
      ensures Valid() && this.name == name && this.creator == creator && this.mode == mode
      ensures pullSessions == map[] && pullQ == [] && this.msgQ == msgQ && sent == [] && lastUpdateTime == 0
    {
      this.name, this.creator, this.mode := name, creator, mode;
      pullSessions, pullQ, this.msgQ, lastUpdateTime, sent := map[], [], msgQ, 0, [];
    }

    /** `consume(msg, sess)`: register the session, park or refresh its pull, then dispatch. */
    method Consume(msg: Message, sess: Session, active: set<string>, broken: set<string>, now: int)
      requires Valid()
      modifies this
      ensures Valid()
      ensures pullSessions == if sess.id in old(pullSessions) then old(pullSessions) else old(pullSessions)[sess.id := sess]
      ensures var r := DispatchFrom(Requested(old(pullQ), sess, msg), old(msgQ), active, broken);
        pullQ == r.pulls && msgQ == r.msgs && sent == old(sent) + r.out &&
        lastUpdateTime == if r.polled then now else old(lastUpdateTime)
    {
      if sess.id !in pullSessions {
        pullSessions := pullSessions[sess.id := sess];
      }
      RequestedKeepsOnePull(pullQ, sess, msg);
      var i := FindPull(sess);
      if i.Some? {
        pullQ := pullQ[i.value := Pull(sess, msg)];
      } else {
        pullQ := pullQ + [Pull(sess, msg)];
      }
      Dispatch(active, broken, now);
    }

    /** The `for (PullSession pull : pullQ)` search for the session's pull. */
    method FindPull(sess: Session) returns (i: Option<nat>)
      ensures i == PullOf(pullQ, sess)
    {
      var k := 0;
      while k < |pullQ|
        invariant 0 <= k <= |pullQ|
        invariant forall j :: 0 <= j < k ==> pullQ[j].session != sess
      {
        if pullQ[k].session == sess {
          return Some(k);
        }
        k := k + 1;
      }
      return None;
    }

    /** `dispatch()`: pair head pulls with head messages until one queue runs dry. */
    method Dispatch(active: set<string>, broken: set<string>, now: int)
      requires Valid()
      modifies this`pullQ, this`msgQ, this`sent, this`lastUpdateTime
      ensures Valid()
      ensures var r := DispatchFrom(old(pullQ), old(msgQ), active, broken);
        pullQ == r.pulls && msgQ == r.msgs && sent == old(sent) + r.out &&
        lastUpdateTime == if r.polled then now else old(lastUpdateTime)
    {
      ghost var r0 := DispatchFrom(pullQ, msgQ, active, broken);
      ghost var sent0 := sent;
      ghost var touched := false;
      while pullQ != [] && msgQ != []
        invariant Valid()
        invariant var r := DispatchFrom(pullQ, msgQ, active, broken);
          r.pulls == r0.pulls && r.msgs == r0.msgs && sent + r.out == sent0 + r0.out &&
          (touched || r.polled) == r0.polled
        invariant lastUpdateTime == if touched then now else old(lastUpdateTime)
        decreases |pullQ|
      {
        var pull := pullQ[0];
        TailKeepsOnePull(pullQ);
        pullQ := pullQ[1..];
        if pull.session.id in active {
          var msg := msgQ[0];
          msgQ := msgQ[1..];
          lastUpdateTime := now;
          touched := true;
          var writeMsg := DeliveredCopy(msg, pull.msg);
          if pull.session.id in broken {
            msgQ := msgQ + [msg];
          } else {
            sent := sent + [Delivery(pull, msg, writeMsg)];
          }
        }
      }
    }

    /** `cleanSession(sess)`: forget the session and drop its pull. */
    method CleanSession(sess: Session)
      requires Valid()
      modifies this`pullSessions, this`pullQ
      ensures Valid()
      ensures pullSessions == old(pullSessions) - {sess.id}
      ensures pullQ == WithoutPullOf(old(pullQ), sess)
    {
      WithoutPullOfRemovesSession(pullQ, sess);
      pullSessions := pullSessions - {sess.id};
      var i := FindPull(sess);
      if i.Some? {
        pullQ := pullQ[..i.value] + pullQ[i.value + 1..];
      }
    }

    /** `cleanSession()`: drop every pull of a closed session, and that session's entry. */
    method CleanInactive(active: set<string>)
      requires Valid()
      modifies this`pullSessions, this`pullQ
      ensures Valid()
      ensures pullQ == ActivePulls(old(pullQ), active)
      ensures pullSessions == old(pullSessions) - InactiveIds(old(pullQ), active)
    {
      var q := pullQ;
      var kept: seq<Pull> := [];
      var i := 0;
      while i < |q|
        invariant 0 <= i <= |q|
        invariant kept == ActivePulls(q[..i], active)
        invariant pullSessions == old(pullSessions) - InactiveIds(q[..i], active)
      {
        assert q[..i + 1][..i] == q[..i];
        var pull := q[i];
        if pull.session.id !in active {
          pullSessions := pullSessions - {pull.session.id};
        } else {
          kept := kept + [pull];
        }
        i := i + 1;
      }
      assert q[..i] == q;
      pullQ := kept;
      ActivePullsKeepsOnePull(q, active);
      ActivePullsFilter(q, active);
      InactiveIdsOf(q, active);
    }

    /** `getMqInfo()`. */
    method GetMqInfo() returns (info: MqInfo)
      ensures info.name == name && info.creator == creator && info.mode == mode
      ensures info.lastUpdateTime == lastUpdateTime
      ensures info.unconsumedMsgCount == |msgQ| && info.consumerCount == |pullSessions|
      ensures |info.consumerInfoList| == |pullQ|
      ensures forall i :: 0 <= i < |pullQ| ==> info.consumerInfoList[i] == ConsumerInfo(pullQ[i].session.id)
    {
      var list: seq<ConsumerInfo> := [];
      var i := 0;
      while i < |pullQ|
        invariant 0 <= i <= |pullQ| && |list| == i
        invariant forall k :: 0 <= k < i ==> list[k] == ConsumerInfo(pullQ[k].session.id)
      {
        list := list + [ConsumerInfo(pullQ[i].session.id)];
        i := i + 1;
      }
      info := MqInfo(name, lastUpdateTime, creator, mode, |msgQ|, |pullSessions|, list);
    }
  }
}
