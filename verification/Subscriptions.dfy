/**
 * Subscribing and unsubscribing while others publish (src/pubsub/Publisher.cc, src/Connection.cc,
 * src/pubsub/SubscriptionTracker.cc). A command of a connection takes three steps, each under a
 * different lock: its own set of topics, the shared index, and the confirmation in its queue.
 * A publisher may hold a connection that it found in the index long ago.
 */
module Subscriptions {
  import opened Bytes

  datatype Topic = Channel(name: Bytes) | Pattern(name: Bytes)

  /** What goes into a connection's queue, and (for the record) when it starts to subscribe. */
  datatype Entry =
    | Message(topic: Topic, payload: Bytes)
    | SubscribeBegun(topic: Topic)
    | Subscribed(topic: Topic, count: int)
    | Unsubscribed(topic: Topic, count: int)

  datatype Phase =
    | Idle
    | Subscribing(topic: Topic)
    | Confirming(topic: Topic)
    | Unsubscribing(topic: Topic)
    | ConfirmingEnd(topic: Topic)

  datatype Listener = Listener(attached: bool, topics: set<Topic>, count: int, phase: Phase, log: seq<Entry>)

  type Conn = nat

  /** `index` are the shared maps from topic to connections. */
  datatype State = State(listeners: map<Conn, Listener>, index: set<(Topic, Conn)>)

  datatype Event =
    | Connect(c: Conn)
    | Disconnect(c: Conn)
    | Subscribe(c: Conn, topic: Topic)
    | Unsubscribe(c: Conn, topic: Topic)
    | Proceed(c: Conn)                                    // the next step of a command under way
    | Deliver(c: Conn, topic: Topic, payload: Bytes)      // by a publisher that found c, now or earlier

  predicate Enabled(s: State, e: Event)
  {
    match e
    case Connect(c) => c !in s.listeners && forall p :: p in s.index ==> p.1 != c
    case Disconnect(c) => c in s.listeners && s.listeners[c].phase.Idle?
    case Subscribe(c, _) => c in s.listeners && s.listeners[c].attached && s.listeners[c].phase.Idle?
    case Unsubscribe(c, _) => c in s.listeners && s.listeners[c].attached && s.listeners[c].phase.Idle?
    case Proceed(c) => c in s.listeners && !s.listeners[c].phase.Idle?
    case Deliver(c, _, _) => c in s.listeners
  }

  function Put(s: State, c: Conn, l: Listener): State
  {
    s.(listeners := s.listeners[c := l])
  }

  /** The second and third step of SUBSCRIBE and UNSUBSCRIBE (src/pubsub/Publisher.cc:71-88, 135-190). */
  function Continued(s: State, c: Conn): State
    requires c in s.listeners
  {
    var l := s.listeners[c];
    match l.phase
    case Idle => s
    case Subscribing(t) =>
      var added := if (t, c) in s.index then 0 else 1;
      Put(s, c, l.(count := l.count + added, phase := Confirming(t))).(index := s.index + {(t, c)})
    case Unsubscribing(t) =>
      var removed := if (t, c) in s.index then 1 else 0;
      Put(s, c, l.(count := l.count - removed, phase := ConfirmingEnd(t))).(index := s.index - {(t, c)})
    case Confirming(t) => Put(s, c, l.(log := l.log + [Subscribed(t, l.count)], phase := Idle))
    case ConfirmingEnd(t) => Put(s, c, l.(log := l.log + [Unsubscribed(t, l.count)], phase := Idle))
  }

  function Step(s: State, e: Event): State
    requires Enabled(s, e)
  {
    match e
    case Connect(c) => Put(s, c, Listener(true, {}, 0, Idle, []))
    case Disconnect(c) => Put(s, c, s.listeners[c].(attached := false))
    case Subscribe(c, t) =>
      var l := s.listeners[c];
      Put(s, c, l.(topics := l.topics + {t}, phase := Subscribing(t), log := l.log + [SubscribeBegun(t)]))
    case Unsubscribe(c, t) =>
      var l := s.listeners[c];
      Put(s, c, l.(topics := l.topics - {t}, phase := Unsubscribing(t)))
    case Proceed(c) => Continued(s, c)
    case Deliver(c, t, payload) =>
      var l := s.listeners[c];
      if !l.attached then s.(index := s.index - {(t, c)})          // the publisher drops dead connections
      else if t !in l.topics then s
      else Put(s, c, l.(log := l.log + [Message(t, payload)]))
  }

  // ---------------------------------------------------------------- what holds

  /** The connection was told that it is unsubscribed, and has not asked again since. */
  predicate Muted(log: seq<Entry>, t: Topic)
  {
    log != [] &&
      var last := log[|log| - 1];
      if last.Unsubscribed? && last.topic == t then true
      else if last == SubscribeBegun(t) then false
      else Muted(log[..|log| - 1], t)
  }

  /** No message comes after the confirmation. */
  ghost predicate Quiet(log: seq<Entry>)
  {
    forall j :: 0 <= j < |log| && log[j].Message? ==> !Muted(log[..j], log[j].topic)
  }

  ghost function IndexedFor(s: State, c: Conn): set<Topic>
  {
    set p | p in s.index && p.1 == c :: p.0
  }

  /**
   * The connection's own set, the shared index and the counter agree, up to the step that a command has still
   * to take.
   */
  ghost predicate Agrees(l: Listener, indexed: set<Topic>)
  {
    && l.count == |indexed|
    && match l.phase
       case Idle => l.topics == indexed
       case Subscribing(t) => l.topics == indexed + {t}
       case Unsubscribing(t) => l.topics == indexed - {t}
       case Confirming(t) => l.topics == indexed && t in l.topics
       case ConfirmingEnd(t) => l.topics == indexed && t !in l.topics
  }

  ghost predicate ListenerFits(l: Listener, indexed: set<Topic>)
  {
    && Quiet(l.log) && (forall t :: Muted(l.log, t) ==> t !in l.topics)
    && (l.attached ==> Agrees(l, indexed)) && (!l.attached ==> l.phase.Idle?)
  }

  ghost predicate Inv(s: State)
  {
    forall c :: c in s.listeners ==> ListenerFits(s.listeners[c], IndexedFor(s, c))
  }

  lemma MutedAppend(log: seq<Entry>, e: Entry, t: Topic)
    ensures Muted(log + [e], t) == if e.Unsubscribed? && e.topic == t then true
      else if e == SubscribeBegun(t) then false else Muted(log, t)
  {
    assert (log + [e])[..|log|] == log;
  }

  lemma QuietAppend(log: seq<Entry>, e: Entry)
    requires Quiet(log) && (e.Message? ==> !Muted(log, e.topic))
    ensures Quiet(log + [e])
  {
    var all := log + [e];
    forall j | 0 <= j < |all| && all[j].Message? ensures !Muted(all[..j], all[j].topic) {
      assert all[..j] == log[..j];
    }
    assert log[..|log|] == log;
  }

  lemma LogAppend(l: Listener, e: Entry)
    requires Quiet(l.log) && (e.Message? ==> !Muted(l.log, e.topic))
    ensures Quiet(l.log + [e])
    ensures forall t :: Muted(l.log + [e], t) <==>
      (e.Unsubscribed? && e.topic == t) || (e != SubscribeBegun(t) && Muted(l.log, t))
  {
    QuietAppend(l.log, e);
    forall t ensures Muted(l.log + [e], t)
      <==> (e.Unsubscribed? && e.topic == t) || (e != SubscribeBegun(t) && Muted(l.log, t)) {
      MutedAppend(l.log, e, t);
    }
  }

  lemma IndexedAfter(s: State, t: State, c: Conn, topic: Topic, d: Conn)
    ensures t.index == s.index + {(topic, c)} ==>
      IndexedFor(t, d) == if d == c then IndexedFor(s, d) + {topic} else IndexedFor(s, d)
    ensures t.index == s.index - {(topic, c)} ==>
      IndexedFor(t, d) == if d == c then IndexedFor(s, d) - {topic} else IndexedFor(s, d)
  {
    if t.index == s.index + {(topic, c)} {
      forall x ensures x in IndexedFor(t, d) <==> x in IndexedFor(s, d) || (d == c && x == topic) {
        assert x in IndexedFor(t, d) <==> (x, d) in t.index;
        assert x in IndexedFor(s, d) <==> (x, d) in s.index;
      }
    }
    if t.index == s.index - {(topic, c)} {
      forall x ensures x in IndexedFor(t, d) <==> x in IndexedFor(s, d) && !(d == c && x == topic) {
        assert x in IndexedFor(t, d) <==> (x, d) in t.index;
        assert x in IndexedFor(s, d) <==> (x, d) in s.index;
      }
    }
  }

  /** A step of one connection is seen by that connection only. */
  lemma OthersUnaffected(s: State, e: Event, d: Conn)
    requires Enabled(s, e) && d != e.c && d in s.listeners
    ensures d in Step(s, e).listeners && Step(s, e).listeners[d] == s.listeners[d]
    ensures IndexedFor(Step(s, e), d) == IndexedFor(s, d)
  {
    var t := Step(s, e);
    match e {
      case Proceed(c) =>
        if s.listeners[c].phase.Subscribing? || s.listeners[c].phase.Unsubscribing? {
          IndexedAfter(s, t, c, s.listeners[c].phase.topic, d);
        }
      case Deliver(c, topic, _) => IndexedAfter(s, t, c, topic, d);
      case _ =>
    }
  }

  lemma ProceedFits(s: State, c: Conn)
    requires Inv(s) && Enabled(s, Proceed(c))
    ensures ListenerFits(Continued(s, c).listeners[c], IndexedFor(Continued(s, c), c))
  {
    var l := s.listeners[c];
    var indexed := IndexedFor(s, c);
    assert ListenerFits(l, indexed);
    match l.phase {
      case Subscribing(t) =>
        IndexedAfter(s, Continued(s, c), c, t, c);
        assert t in indexed <==> (t, c) in s.index;
        assert t in indexed ==> indexed + {t} == indexed;
      case Unsubscribing(t) =>
        IndexedAfter(s, Continued(s, c), c, t, c);
        assert t in indexed <==> (t, c) in s.index;
        assert t !in indexed ==> indexed - {t} == indexed;
      case Confirming(t) => LogAppend(l, Subscribed(t, l.count));
      case ConfirmingEnd(t) => LogAppend(l, Unsubscribed(t, l.count));
    }
  }

  lemma DeliverFits(s: State, c: Conn, topic: Topic, payload: Bytes)
    requires Inv(s) && c in s.listeners
    ensures var t := Step(s, Deliver(c, topic, payload)); ListenerFits(t.listeners[c], IndexedFor(t, c))
  {
    var l := s.listeners[c];
    assert ListenerFits(l, IndexedFor(s, c));
    if l.attached && topic in l.topics {
      LogAppend(l, Message(topic, payload));
    }
  }

  lemma SubscribeFits(s: State, c: Conn, topic: Topic)
    requires Inv(s) && Enabled(s, Subscribe(c, topic))
    ensures var t := Step(s, Subscribe(c, topic)); ListenerFits(t.listeners[c], IndexedFor(t, c))
  {
    LogAppend(s.listeners[c], SubscribeBegun(topic));
  }

  lemma StepKeeps(s: State, e: Event)
    requires Inv(s) && Enabled(s, e)
    ensures Inv(Step(s, e))
  {
    var t := Step(s, e);
    forall d | d in t.listeners ensures ListenerFits(t.listeners[d], IndexedFor(t, d)) {
      if d != e.c {
        OthersUnaffected(s, e, d);
      } else {
        match e {
          case Connect(c) => assert IndexedFor(t, c) == {};
          case Proceed(c) => ProceedFits(s, c);
          case Deliver(c, topic, payload) => DeliverFits(s, c, topic, payload);
          case Subscribe(c, topic) => SubscribeFits(s, c, topic);
          case Unsubscribe(c, topic) => assert ListenerFits(s.listeners[c], IndexedFor(s, c));
          case Disconnect(c) => assert ListenerFits(s.listeners[c], IndexedFor(s, c));
        }
      }
    }
  }

  ghost predicate StepAt(states: seq<State>, events: seq<Event>, k: nat)
    requires k < |events| && |states| == |events| + 1
  {
    Enabled(states[k], events[k]) && states[k + 1] == Step(states[k], events[k])
  }

  ghost predicate IsRun(states: seq<State>, events: seq<Event>)
  {
    && |states| == |events| + 1 && states[0] == State(map[], {})
    && forall k {:trigger StepAt(states, events, k)} :: 0 <= k < |events| ==> StepAt(states, events, k)
  }

  lemma {:induction false} RunKeeps(states: seq<State>, events: seq<Event>, k: nat)
    requires IsRun(states, events) && k <= |events|
    ensures Inv(states[k])
  {
    if k > 0 {
      RunKeeps(states, events, k - 1);
      assert StepAt(states, events, k - 1);
      StepKeeps(states[k - 1], events[k - 1]);
    }
  }

  /** After a connection was told that it is unsubscribed, it gets nothing on that topic until it subscribes again. */
  lemma NothingAfterUnsubscribe(states: seq<State>, events: seq<Event>, k: nat, c: Conn, i: nat, j: nat)
    requires IsRun(states, events) && k <= |events| && c in states[k].listeners
    requires var log := states[k].listeners[c].log;
      i < j < |log| && log[i].Unsubscribed? && log[j].Message? && log[j].topic == log[i].topic
    ensures var log := states[k].listeners[c].log; exists m :: i < m < j && log[m] == SubscribeBegun(log[i].topic)
  {
    RunKeeps(states, events, k);
    var log := states[k].listeners[c].log;
    assert Quiet(log);
    BegunBetween(log, i, j);
  }

  lemma {:induction false} BegunBetween(log: seq<Entry>, i: nat, j: nat)
    requires i < j <= |log| && log[i].Unsubscribed? && !Muted(log[..j], log[i].topic)
    ensures exists m :: i < m < j && log[m] == SubscribeBegun(log[i].topic)
  {
    var t := log[i].topic;
    assert log[..j][..j - 1] == log[..j - 1];
    if log[j - 1] != SubscribeBegun(t) && i < j - 1 {
      BegunBetween(log, i, j - 1);
    }
  }

  /** Between commands, a connection's counter is the number of its topics, in its own set as in the shared index. */
  lemma CountersAgree(states: seq<State>, events: seq<Event>, k: nat, c: Conn)
    requires IsRun(states, events) && k <= |events| && c in states[k].listeners
    requires states[k].listeners[c].attached && states[k].listeners[c].phase.Idle?
    ensures states[k].listeners[c].topics == IndexedFor(states[k], c)
    ensures states[k].listeners[c].count == |states[k].listeners[c].topics|
  {
    RunKeeps(states, events, k);
    assert ListenerFits(states[k].listeners[c], IndexedFor(states[k], c));
  }

  // ---------------------------------------------------------------- what is delivered

  /**
   * A listener that is there and has the topic in its own set gets the message at the end of its queue; one that
   * is gone leaves the index; nothing else happens.
   */
  lemma Delivered(s: State, c: Conn, topic: Topic, payload: Bytes)
    requires c in s.listeners
    ensures var l, t := s.listeners[c], Step(s, Deliver(c, topic, payload));
      && t.listeners.Keys == s.listeners.Keys && c in t.listeners
      && (forall d :: d in s.listeners && d != c ==> t.listeners[d] == s.listeners[d])
      && t.listeners[c] == (if l.attached && topic in l.topics then l.(log := l.log + [Message(topic, payload)]) else l)
      && t.index == if l.attached then s.index else s.index - {(topic, c)}
  {
  }

  /** After the first `k` events, the connection is there, and the last it asked about the topic was to subscribe. */
  predicate Wants(events: seq<Event>, k: nat, c: Conn, topic: Topic)
    requires k <= |events|
  {
    if k == 0 then false
    else if events[k - 1] == Subscribe(c, topic) then true
    else if events[k - 1] == Unsubscribe(c, topic) || events[k - 1] == Disconnect(c) then false
    else Wants(events, k - 1, c, topic)
  }

  /** The messages of a log, without the confirmations between them. */
  function MessagesOf(log: seq<Entry>): seq<Entry>
  {
    if log == [] then []
    else MessagesOf(log[..|log| - 1]) + if log[|log| - 1].Message? then log[|log| - 1..] else []
  }

  /** What publishers handed to the connection while it wanted it. */
  function Owed(events: seq<Event>, k: nat, c: Conn): seq<Entry>
    requires k <= |events|
  {
    if k == 0 then []
    else
      var e := events[k - 1];
      Owed(events, k - 1, c)
      + if e.Deliver? && e.c == c && Wants(events, k - 1, c, e.topic) then [Message(e.topic, e.payload)] else []
  }

  lemma MessagesMore(log: seq<Entry>, e: Entry)
    ensures MessagesOf(log + [e]) == MessagesOf(log) + if e.Message? then [e] else []
  {
    assert (log + [e])[..|log|] == log && (log + [e])[|log|..] == [e];
  }

  lemma WantedStep(s: State, e: Event, c: Conn, topic: Topic)
    requires Inv(s) && Enabled(s, e) && c in s.listeners
    ensures var l, m := s.listeners[c], Step(s, e).listeners[c];
      m.attached && topic in m.topics <==>
        e == Subscribe(c, topic)
        || (l.attached && topic in l.topics && e != Unsubscribe(c, topic) && e != Disconnect(c))
  {
    if e.c != c { OthersUnaffected(s, e, c); }
  }

  lemma {:induction false} WantedIsWants(states: seq<State>, events: seq<Event>, k: nat, c: Conn, topic: Topic)
    requires IsRun(states, events) && k <= |events|
    ensures Wants(events, k, c, topic) <==>
      c in states[k].listeners && states[k].listeners[c].attached && topic in states[k].listeners[c].topics
  {
    if k > 0 {
      WantedIsWants(states, events, k - 1, c, topic);
      RunKeeps(states, events, k - 1);
      assert StepAt(states, events, k - 1);
      if c in states[k - 1].listeners {
        WantedStep(states[k - 1], events[k - 1], c, topic);
      }
    }
  }

  /** What a step adds to the log of a connection. */
  lemma LogStep(s: State, e: Event, c: Conn)
    requires Inv(s) && Enabled(s, e) && c in s.listeners
    ensures var l, m := s.listeners[c], Step(s, e).listeners[c];
      MessagesOf(m.log) == MessagesOf(l.log)
        + if e.Deliver? && e.c == c && l.attached && e.topic in l.topics then [Message(e.topic, e.payload)] else []
  {
    if e.c != c {
      OthersUnaffected(s, e, c);
    } else {
      var l := s.listeners[c];
      match e {
        case Deliver(_, topic, payload) => MessagesMore(l.log, Message(topic, payload));
        case Subscribe(_, topic) => MessagesMore(l.log, SubscribeBegun(topic));
        case Proceed(_) =>
          if !l.phase.Idle? {
            MessagesMore(l.log, Subscribed(l.phase.topic, l.count));
            MessagesMore(l.log, Unsubscribed(l.phase.topic, l.count));
          }
        case _ =>
      }
    }
  }

  /**
   * Over any run, a connection gets exactly what publishers handed to it on the topics that it had subscribed
   * to and not left since: each message once, in the order of the deliveries, and nothing else.
   */
  lemma {:induction false} GetsWhatIsOwed(states: seq<State>, events: seq<Event>, k: nat, c: Conn)
    requires IsRun(states, events) && k <= |events|
    ensures Owed(events, k, c) == if c in states[k].listeners then MessagesOf(states[k].listeners[c].log) else []
  {
    if k > 0 {
      GetsWhatIsOwed(states, events, k - 1, c);
      RunKeeps(states, events, k - 1);
      var e := events[k - 1];
      assert StepAt(states, events, k - 1);
      if e.Deliver? { WantedIsWants(states, events, k - 1, c, e.topic); }
      if c in states[k - 1].listeners {
        LogStep(states[k - 1], e, c);
      }
    }
  }

  /** The messages on one topic that publishers handed to the connection from event `i` up to event `k`. */
  function HandedOn(events: seq<Event>, i: nat, k: nat, c: Conn, topic: Topic): seq<Entry>
    requires i <= k <= |events|
    decreases k
  {
    if i == k then []
    else
      var e := events[k - 1];
      HandedOn(events, i, k - 1, c, topic)
      + if e.Deliver? && e.c == c && e.topic == topic then [Message(topic, e.payload)] else []
  }

  function About(log: seq<Entry>, topic: Topic): seq<Entry>
  {
    if log == [] then []
    else
      var e := log[|log| - 1];
      About(log[..|log| - 1], topic) + if e.Message? && e.topic == topic then [e] else []
  }

  lemma AboutMore(log: seq<Entry>, e: Entry, topic: Topic)
    ensures About(log + [e], topic) == About(log, topic) + if e.Message? && e.topic == topic then [e] else []
  {
    assert (log + [e])[..|log|] == log;
  }

  lemma AboutStep(s: State, e: Event, c: Conn, topic: Topic)
    requires Inv(s) && Enabled(s, e) && c in s.listeners
    requires s.listeners[c].attached && topic in s.listeners[c].topics
    ensures var l, m := s.listeners[c], Step(s, e).listeners[c];
      About(m.log, topic) == About(l.log, topic)
        + if e.Deliver? && e.c == c && e.topic == topic then [Message(topic, e.payload)] else []
  {
    if e.c != c {
      OthersUnaffected(s, e, c);
    } else {
      var l := s.listeners[c];
      match e {
        case Deliver(_, other, payload) => AboutMore(l.log, Message(other, payload), topic);
        case Subscribe(_, other) => AboutMore(l.log, SubscribeBegun(other), topic);
        case Proceed(_) =>
          if !l.phase.Idle? {
            AboutMore(l.log, Subscribed(l.phase.topic, l.count), topic);
            AboutMore(l.log, Unsubscribed(l.phase.topic, l.count), topic);
          }
        case _ =>
      }
    }
  }

  /**
   * From the confirmation of a subscription, which event `i - 1` has just queued, to the next Unsubscribe or
   * Disconnect, every delivery on the topic adds its message to the log, once and in order.
   */
  lemma {:induction false} NothingLostOnceConfirmed(
    states: seq<State>, events: seq<Event>, i: nat, k: nat, c: Conn, topic: Topic, n: int)
    requires IsRun(states, events) && 0 < i <= k <= |events| && c in states[i - 1].listeners
    requires events[i - 1] == Proceed(c) && c in states[i].listeners
    requires states[i].listeners[c].log == states[i - 1].listeners[c].log + [Subscribed(topic, n)]
    requires forall j :: i <= j < k ==> events[j] != Unsubscribe(c, topic) && events[j] != Disconnect(c)
    ensures c in states[k].listeners && states[k].listeners[c].attached && topic in states[k].listeners[c].topics
    ensures About(states[k].listeners[c].log, topic)
      == About(states[i].listeners[c].log, topic) + HandedOn(events, i, k, c, topic)
    decreases k
  {
    if i == k {
      RunKeeps(states, events, i - 1);
      assert StepAt(states, events, i - 1);
      ConfirmedTopic(states[i - 1], c, topic, n);
    } else {
      NothingLostOnceConfirmed(states, events, i, k - 1, c, topic, n);
      RunKeeps(states, events, k - 1);
      assert StepAt(states, events, k - 1);
      WantedStep(states[k - 1], events[k - 1], c, topic);
      AboutStep(states[k - 1], events[k - 1], c, topic);
    }
  }

  lemma ConfirmedTopic(s: State, c: Conn, topic: Topic, n: int)
    requires Inv(s) && Enabled(s, Proceed(c))
    requires Step(s, Proceed(c)).listeners[c].log == s.listeners[c].log + [Subscribed(topic, n)]
    ensures Step(s, Proceed(c)).listeners[c].attached && topic in Step(s, Proceed(c)).listeners[c].topics
  {
    var l, m := s.listeners[c], Step(s, Proceed(c)).listeners[c];
    assert ListenerFits(l, IndexedFor(s, c));
    assert m.log[|l.log|] == Subscribed(topic, n);
  }

  /**
   * The three steps of a command. The connection's own set changes first, then the index, and the confirmation
   * reports how many topics the connection has: the one subscribed to among them, the one left not.
   */
  lemma CommandSteps(s: State, c: Conn)
    requires Inv(s) && Enabled(s, Proceed(c))
    ensures var l, t := s.listeners[c], Step(s, Proceed(c));
      match l.phase
      case Subscribing(topic) =>
        (topic, c) in t.index && topic in l.topics && t.listeners[c].phase == Confirming(topic)
          && t.listeners[c].log == l.log && t.listeners[c].topics == l.topics
      case Unsubscribing(topic) =>
        (topic, c) !in t.index && topic !in l.topics && t.listeners[c].phase == ConfirmingEnd(topic)
          && t.listeners[c].log == l.log && t.listeners[c].topics == l.topics
      case Confirming(topic) =>
        topic in l.topics && t.listeners[c].phase == Idle
          && t.listeners[c].log == l.log + [Subscribed(topic, |l.topics|)] && t.listeners[c].topics == l.topics
      case ConfirmingEnd(topic) =>
        topic !in l.topics && t.listeners[c].phase == Idle
          && t.listeners[c].log == l.log + [Unsubscribed(topic, |l.topics|)] && t.listeners[c].topics == l.topics
      case Idle => true
  {
    assert ListenerFits(s.listeners[c], IndexedFor(s, c));
  }

  /** Each confirmation in a log, when it was queued, named the number of topics the connection then had. */
  lemma ConfirmationCounts(states: seq<State>, events: seq<Event>, k: nat, c: Conn, e: Entry)
    requires IsRun(states, events) && k < |events| && c in states[k].listeners && c in states[k + 1].listeners
    requires states[k + 1].listeners[c].log == states[k].listeners[c].log + [e]
    ensures e.Subscribed? || e.Unsubscribed? ==>
      && e.count == |states[k + 1].listeners[c].topics|
      && states[k + 1].listeners[c].topics == IndexedFor(states[k + 1], c)
      && (e.topic in states[k + 1].listeners[c].topics <==> e.Subscribed?)
  {
    RunKeeps(states, events, k);
    RunKeeps(states, events, k + 1);
    assert StepAt(states, events, k);
    var l, m := states[k].listeners[c], states[k + 1].listeners[c];
    assert m.log[|l.log|] == e;
    if events[k].c != c {
      OthersUnaffected(states[k], events[k], c);
    } else if events[k].Proceed? {
      CommandSteps(states[k], c);
      CountersAgree(states, events, k + 1, c);
    }
  }

  /** Commands begin with the connection's own set, and change nothing else yet. */
  lemma CommandsBegin(s: State, c: Conn, topic: Topic)
    requires Enabled(s, Subscribe(c, topic))
    ensures var l, a, b := s.listeners[c], Step(s, Subscribe(c, topic)), Step(s, Unsubscribe(c, topic));
      && a.index == b.index == s.index
      && a.listeners[c].topics == l.topics + {topic} && a.listeners[c].phase == Subscribing(topic)
      && a.listeners[c].log == l.log + [SubscribeBegun(topic)]
      && b.listeners[c].topics == l.topics - {topic} && b.listeners[c].phase == Unsubscribing(topic)
      && b.listeners[c].log == l.log
  {
  }
}
