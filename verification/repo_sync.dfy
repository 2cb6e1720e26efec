/**
 * The event side of the application entry point: the application's own
 * event type, the classifier that turns watcher events into it, and the
 * rule by which the watcher callback forwards classified events to the
 * application's channel.
 */
module RepoSync {
  import opened Wrappers
  import opened Notify

  /** The messages the application's receive loop consumes. */
  datatype CustomEvent = Modif | Pull | Push

  /** The event kinds that mean the watched tree's content changed. */
  predicate IsChangeKind(kind: EventKind) {
    kind.Create? || kind.Modify? || kind.Remove?
  }

  /**
   * `map_notify_event`: creations, modifications and removals of any sub-kind
   * become a `Modif` message; accesses, `Any` and `Other` are dropped. The
   * classifier never produces `Pull` or `Push`.
   */
  function MapNotifyEvent(event: Event): (r: Option<CustomEvent>)
    ensures r.Some? <==> IsChangeKind(event.kind)
    ensures r == None || r == Some(Modif)
  {
    match event.kind
    case Create(_) => Some(Modif)
    case Modify(_) => Some(Modif)
    case Remove(_) => Some(Modif)
    case _ => None
  }

  lemma CreateIsModif(c: CreateKind, paths: seq<Path>, attrs: EventAttributes)
    ensures MapNotifyEvent(Event(Create(c), paths, attrs)) == Some(Modif)
  {
  }

  lemma ModifyIsModif(m: ModifyKind, paths: seq<Path>, attrs: EventAttributes)
    ensures MapNotifyEvent(Event(Modify(m), paths, attrs)) == Some(Modif)
  {
  }

  lemma RemoveIsModif(r: RemoveKind, paths: seq<Path>, attrs: EventAttributes)
    ensures MapNotifyEvent(Event(Remove(r), paths, attrs)) == Some(Modif)
  {
  }

  /** Every kind other than create, modify and remove is ignored. */
  lemma OtherKindsIgnored(event: Event)
    requires event.kind.Any? || event.kind.Access? || event.kind.Other?
    ensures MapNotifyEvent(event) == None
  {
  }

  /** Classification looks at the kind only, never at paths or attributes. */
  lemma ClassificationDependsOnlyOnKind(e1: Event, e2: Event)
    requires e1.kind == e2.kind
    ensures MapNotifyEvent(e1) == MapNotifyEvent(e2)
  {
  }

  /**
   * The messages the watcher callback of `async_watcher` sends, in order,
   * when the watcher delivers `events`: for each event, `f`'s message if it
   * returns one, and nothing otherwise.
   */
  function SentMessages<T>(f: Event -> Option<T>, events: seq<Event>): (sent: seq<T>)
    ensures |sent| <= |events|
  {
    if events == [] then []
    else
      var now := match f(events[0]) case Some(msg) => [msg] case None => [];
      now + SentMessages(f, events[1..])
  }

  /** Forwarding is compositional: later deliveries append to earlier ones. */
  lemma {:induction false} SentMessagesAppend<T>(f: Event -> Option<T>, a: seq<Event>, b: seq<Event>)
    ensures SentMessages(f, a + b) == SentMessages(f, a) + SentMessages(f, b)
  {
    if a == [] {
      assert a + b == b;
    } else {
      assert (a + b)[1..] == a[1..] + b;
      SentMessagesAppend(f, a[1..], b);
    }
  }

  /**
   * `sent` is what `f` returns for the events at the positions `idx`, the
   * positions are in increasing order, and they are exactly the positions
   * at which `f` returns a message.
   */
  ghost predicate SelectsSome<T>(f: Event -> Option<T>, events: seq<Event>, sent: seq<T>, idx: seq<nat>) {
    && |idx| == |sent|
    && (forall j :: 0 <= j < |idx| ==> idx[j] < |events| && f(events[idx[j]]) == Some(sent[j]))
    && (forall j, k :: 0 <= j < k < |idx| ==> idx[j] < idx[k])
    && (forall i :: 0 <= i < |events| && f(events[i]).Some? ==> i in idx)
  }

  /** One more delivered event extends the selection by its message, if any. */
  lemma SelectsSomeSnoc<T>(f: Event -> Option<T>, init: seq<Event>, last: Event, sent: seq<T>, idx: seq<nat>)
    requires SelectsSome(f, init, sent, idx)
    ensures f(last).Some? ==> SelectsSome(f, init + [last], sent + [f(last).value], idx + [|init|])
    ensures f(last).None? ==> SelectsSome(f, init + [last], sent, idx)
  {
    var events := init + [last];
    assert forall i :: 0 <= i < |init| ==> events[i] == init[i];
  }

  /** A message is sent iff `f` returns one, and the messages keep the events' order. */
  lemma {:induction false} SentMessagesSelectsSome<T>(f: Event -> Option<T>, events: seq<Event>)
    ensures exists idx :: SelectsSome(f, events, SentMessages(f, events), idx)
  {
    if events == [] {
      assert SelectsSome(f, events, SentMessages(f, events), []);
    } else {
      var n := |events| - 1;
      var init, last := events[..n], events[n];
      assert init + [last] == events;
      SentMessagesSelectsSome(f, init);
      var idx :| SelectsSome(f, init, SentMessages(f, init), idx);
      SentMessagesAppend(f, init, [last]);
      assert [last][1..] == [];
      SelectsSomeSnoc(f, init, last, SentMessages(f, init), idx);
      if f(last).Some? {
        assert SentMessages(f, [last]) == [f(last).value];
        assert SelectsSome(f, events, SentMessages(f, events), idx + [n]);
      } else {
        assert SentMessages(f, [last]) == [];
        assert SelectsSome(f, events, SentMessages(f, events), idx);
      }
    }
  }

  ghost predicate Increasing(s: seq<nat>) {
    forall j, k :: 0 <= j < k < |s| ==> s[j] < s[k]
  }

  /** A hint for the solver: a non-empty sequence holds its first element. */
  lemma NonEmptyHasHead(s: seq<nat>)
    ensures s != [] ==> s[0] in s
  {
  }

  /** Two increasing sequences with the same elements are equal. */
  lemma {:induction false} IncreasingUnique(a: seq<nat>, b: seq<nat>)
    requires Increasing(a) && Increasing(b)
    requires forall x :: x in a <==> x in b
    ensures a == b
  {
    if a == [] {
      NonEmptyHasHead(b);
    } else {
      assert a[0] in b;
      assert b != [];
      assert b[0] in a;
      assert a[0] == b[0];
      forall x
        ensures x in a[1..] <==> x in b[1..]
      {
        if x in a[1..] {
          var j :| 1 <= j < |a| && a[j] == x;
          assert x in b && x != b[0];
        }
        if x in b[1..] {
          var j :| 1 <= j < |b| && b[j] == x;
          assert x in a && x != a[0];
        }
      }
      IncreasingUnique(a[1..], b[1..]);
    }
  }

  /**
   * `SelectsSome` pins the message sequence down completely: with the
   * previous lemma it is an independent characterisation of `SentMessages`.
   */
  lemma SelectsSomeUnique<T>(f: Event -> Option<T>, events: seq<Event>,
                             s1: seq<T>, i1: seq<nat>, s2: seq<T>, i2: seq<nat>)
    requires SelectsSome(f, events, s1, i1) && SelectsSome(f, events, s2, i2)
    ensures s1 == s2
  {
    forall x
      ensures x in i1 <==> x in i2
    {
      if x in i1 {
        var j :| 0 <= j < |i1| && i1[j] == x;
        assert f(events[x]).Some?;
      }
      if x in i2 {
        var j :| 0 <= j < |i2| && i2[j] == x;
        assert f(events[x]).Some?;
      }
    }
    IncreasingUnique(i1, i2);
    forall j | 0 <= j < |s1|
      ensures s1[j] == s2[j]
    {
      assert f(events[i1[j]]) == Some(s1[j]);
    }
  }

  /** `SelectsSome` and `SentMessages` describe the same message sequence. */
  lemma SentMessagesCharacterised<T>(f: Event -> Option<T>, events: seq<Event>, sent: seq<T>)
    ensures (exists idx :: SelectsSome(f, events, sent, idx)) <==> sent == SentMessages(f, events)
  {
    SentMessagesSelectsSome(f, events);
    var idx :| SelectsSome(f, events, SentMessages(f, events), idx);
    if exists i :: SelectsSome(f, events, sent, i) {
      var i :| SelectsSome(f, events, sent, i);
      SelectsSomeUnique(f, events, sent, i, SentMessages(f, events), idx);
    }
  }

  /** Nothing is sent iff `f` drops every event. */
  lemma {:induction false} NothingSentIffAllDropped<T>(f: Event -> Option<T>, events: seq<Event>)
    ensures SentMessages(f, events) == [] <==> forall i :: 0 <= i < |events| ==> f(events[i]).None?
  {
    if events != [] {
      NothingSentIffAllDropped(f, events[1..]);
      if f(events[0]).None? {
        forall i | 0 < i < |events|
          ensures f(events[i]) == f(events[1..][i - 1])
        {
        }
      }
    }
  }

  /** Every event yields a message iff `f` keeps every event. */
  lemma {:induction false} AllSentIffAllKept<T>(f: Event -> Option<T>, events: seq<Event>)
    ensures |SentMessages(f, events)| == |events| <==> forall i :: 0 <= i < |events| ==> f(events[i]).Some?
  {
    if events != [] {
      AllSentIffAllKept(f, events[1..]);
      if f(events[0]).Some? {
        forall i | 0 < i < |events|
          ensures f(events[i]) == f(events[1..][i - 1])
        {
        }
      }
    }
  }

  /** The application's watcher sends nothing but `Modif` messages. */
  lemma {:induction false} WatcherSendsOnlyModif(events: seq<Event>)
    ensures forall m :: m in SentMessages(MapNotifyEvent, events) ==> m == Modif
  {
    if events != [] {
      WatcherSendsOnlyModif(events[1..]);
    }
  }

  /** The application's watcher sends one message per event iff every event is a change. */
  lemma WatcherSendsOnePerChange(events: seq<Event>)
    ensures |SentMessages(MapNotifyEvent, events)| == |events|
            <==> forall i :: 0 <= i < |events| ==> IsChangeKind(events[i].kind)
  {
    AllSentIffAllKept(MapNotifyEvent, events);
  }
}
