/** The scheduler loop: which entries a tick launches, and when. */
module CronRun {
  import opened Calendar
  import opened CronSpec
  import opened CronDelay
  import opened Sequences

  /** What a schedule must satisfy: its next activation is zero or strictly later. */
  ghost predicate GoodSchedule(schedule: Time -> Time) {
    forall t :: schedule(t).IsZero() || schedule(t).After(t)
  }

  lemma SpecIsGood(s: SpecSchedule)
    ensures GoodSchedule((t: Time) => NextActivation(s, t))
  {
    hide DateOf, Search, NextActivation;
    forall t: Time
      ensures NextActivation(s, t).IsZero() || NextActivation(s, t).After(t)
    {
      NextIsZeroOrLater(s, t);
    }
  }

  lemma EveryIsGood(duration: int)
    ensures GoodSchedule((t: Time) => Every(duration).Next(t))
  {
    forall t: Time
      ensures Every(duration).Next(t).After(t)
    {
      EveryActivations(duration, t);
    }
  }

  class Entry {
    const schedule: Time -> Time
    const job: int
    var next: Time
    var prev: Time

    constructor (schedule: Time -> Time, job: int, next: Time, prev: Time)
      ensures this.schedule == schedule && this.job == job && this.next == next && this.prev == prev
    {
      this.schedule, this.job, this.next, this.prev := schedule, job, next, prev;
    }

    predicate Due(now: Time)
      reads this
    {
      !next.IsZero() && !next.After(now)
    }
  }

  /** The order of the entry list: earliest first, zero times at the end. */
  predicate Less(a: Entry, b: Entry)
    reads a, b
  {
    if a.next.IsZero() then false
    else if b.next.IsZero() then true
    else a.next.Before(b.next)
  }

  predicate Sorted(es: seq<Entry>)
    reads es
  {
    forall i, j :: 0 <= i < j < |es| ==> !Less(es[j], es[i])
  }

  /** One launch of an entry's job: its activation time and the tick that fired it. */
  datatype Launch = Launch(entry: Entry, at: Time, now: Time)

  lemma SameElements<T>(s: seq<T>, t: seq<T>)
    requires multiset(s) == multiset(t)
    ensures forall e :: e in s <==> e in t
  {
    forall e
      ensures e in s <==> e in t
    {
      assert e in s <==> e in multiset(s);
      assert e in t <==> e in multiset(t);
    }
  }

  /** Inserts an entry behind all entries that are not later. */
  method InsertSorted(es: seq<Entry>, e: Entry) returns (r: seq<Entry>)
    requires Sorted(es) && Distinct(es) && e !in es
    ensures Sorted(r) && Distinct(r)
    ensures multiset(r) == multiset(es) + multiset{e}
  {
    var k := |es|;
    while k > 0 && Less(e, es[k - 1])
      invariant 0 <= k <= |es|
      invariant forall j :: k <= j < |es| ==> Less(e, es[j])
    {
      k := k - 1;
    }
    r := es[..k] + [e] + es[k..];
    assert multiset(r) == multiset(es) + multiset{e} by {
      assert es == es[..k] + es[k..];
    }
    forall j | 0 <= j < k
      ensures !Less(e, es[j])
    {
      NotLessTransitive(es[j], es[k - 1], e);
    }
    InsertionIsSorted(es, e, k);
  }

  lemma NotLessTransitive(a: Entry, b: Entry, c: Entry)
    requires !Less(b, a) && !Less(c, b)
    ensures !Less(c, a)
  {
  }

  lemma InsertionIsSorted(es: seq<Entry>, e: Entry, k: nat)
    requires Sorted(es) && Distinct(es) && e !in es && k <= |es|
    requires forall j :: k <= j < |es| ==> Less(e, es[j])
    requires forall j :: 0 <= j < k ==> !Less(e, es[j])
    ensures var r := es[..k] + [e] + es[k..]; Sorted(r) && Distinct(r)
  {
    hide Less;
    var r := es[..k] + [e] + es[k..];
    forall i, j | 0 <= i < j < |r|
      ensures !Less(r[j], r[i]) && r[i] != r[j]
    {
      if i == k {
        LessAsymmetric(e, es[j - 1]);
      }
    }
  }

  lemma LessAsymmetric(a: Entry, b: Entry)
    requires Less(a, b)
    ensures !Less(b, a)
  {
  }

  /** The launches of one entry: activation times and the ticks that fired them. */
  function LaunchesOf(launches: seq<Launch>, e: Entry): seq<(Time, Time)> {
    if launches == [] then []
    else
      var l := launches[|launches| - 1];
      LaunchesOf(launches[..|launches| - 1], e) + (if l.entry == e then [(l.at, l.now)] else [])
  }

  lemma {:induction false} LaunchesOfConcat(a: seq<Launch>, b: seq<Launch>, e: Entry)
    ensures LaunchesOf(a + b, e) == LaunchesOf(a, e) + LaunchesOf(b, e)
  {
    if b == [] {
      assert a + b == a;
    } else {
      var n := |b| - 1;
      assert (a + b)[..|a + b| - 1] == a + b[..n];
      LaunchesOfConcat(a, b[..n], e);
    }
  }

  lemma {:induction false} NotLaunched(launches: seq<Launch>, e: Entry)
    requires forall l :: l in launches ==> l.entry != e
    ensures LaunchesOf(launches, e) == []
  {
    if launches != [] {
      NotLaunched(launches[..|launches| - 1], e);
    }
  }

  /** When the entries at the front of the list are launched in turn, each has one launch. */
  lemma {:induction false} LaunchesOfFront(entries: seq<Entry>, fired: seq<Launch>, k: nat)
    requires Distinct(entries) && |fired| <= |entries| && k < |entries|
    requires forall i :: 0 <= i < |fired| ==> fired[i].entry == entries[i]
    ensures LaunchesOf(fired, entries[k]) == if k < |fired| then [(fired[k].at, fired[k].now)] else []
  {
    if fired != [] {
      LaunchesOfFront(entries, fired[..|fired| - 1], k);
    }
  }

  // ----- a run, seen by one entry ---------------------------------------------------

  datatype Event = Timer(now: Time) | NewEntry(entry: Entry, now: Time) | SnapshotRequest | StopRequest

  /** Whether the entry has been added, its next activation, and its launches so far. */
  datatype Track = Track(added: bool, next: Time, launched: seq<(Time, Time)>)

  /** What one event does to one entry, whatever other entries there are. */
  function FollowEvent(e: Entry, t: Track, event: Event): Track {
    match event
    case Timer(now) =>
      if t.added && !t.next.IsZero() && !t.next.After(now)
      then Track(true, e.schedule(now), t.launched + [(t.next, now)])
      else t
    case NewEntry(e', now) => if e' == e then Track(true, e.schedule(now), t.launched) else t
    case SnapshotRequest => t
    case StopRequest => t
  }

  function Follow(e: Entry, t: Track, events: seq<Event>): Track {
    if events == [] then t
    else FollowEvent(e, Follow(e, t, events[..|events| - 1]), events[|events| - 1])
  }

  lemma FollowOne(e: Entry, t: Track, events: seq<Event>, i: nat)
    requires i < |events|
    ensures Follow(e, t, events[..i + 1]) == FollowEvent(e, Follow(e, t, events[..i]), events[i])
  {
    assert events[..i + 1][..i] == events[..i];
  }

  lemma {:induction false} FollowIdle(e: Entry, events: seq<Event>)
    requires forall i :: 0 <= i < |events| && events[i].NewEntry? ==> events[i].entry != e
    ensures Follow(e, Track(false, ZERO_TIME, []), events) == Track(false, ZERO_TIME, [])
  {
    if events != [] {
      FollowIdle(e, events[..|events| - 1]);
    }
  }

  /** Launches at strictly increasing activation times, each due when it fired, all before the next. */
  predicate InOrder(t: Track) {
    && (forall i :: 0 <= i < |t.launched| ==> !t.launched[i].0.After(t.launched[i].1))
    && (forall i, j :: 0 <= i < j < |t.launched| ==> t.launched[i].0.Before(t.launched[j].0))
    && (forall i :: 0 <= i < |t.launched| && !t.next.IsZero() ==> t.launched[i].0.Before(t.next))
    && (!t.added ==> t.launched == [])
  }

  /** Over every sequence of events the activation times of an entry strictly increase, whatever
      the clock says, if and only if they did before and lie before its next activation: only its
      schedule has to move forward. */
  lemma {:induction false} FollowInOrder(e: Entry, t: Track, events: seq<Event>)
    requires GoodSchedule(e.schedule) && (!t.added ==> t.launched == [])
    requires t.added ==> forall i :: 0 <= i < |events| && events[i].NewEntry? ==> events[i].entry != e
    requires forall i, j :: 0 <= i < j < |events| && events[i].NewEntry? && events[j].NewEntry? ==>
      events[i].entry != events[j].entry
    ensures InOrder(Follow(e, t, events)) <==> InOrder(t)
    ensures Follow(e, t, events).added <==>
      t.added || exists i :: 0 <= i < |events| && events[i].NewEntry? && events[i].entry == e
    ensures !Follow(e, t, events).added ==> Follow(e, t, events).launched == []
  {
    if events != [] {
      var n := |events| - 1;
      FollowInOrder(e, t, events[..n]);
      assert events == events[..n] + [events[n]];
      EventInOrder(e, Follow(e, t, events[..n]), events[n]);
    }
  }

  lemma EventInOrder(e: Entry, t: Track, event: Event)
    requires GoodSchedule(e.schedule) && (!t.added ==> t.launched == [])
    requires t.added && event.NewEntry? ==> event.entry != e
    ensures InOrder(FollowEvent(e, t, event)) <==> InOrder(t)
  {
    var u := FollowEvent(e, t, event);
    if event.Timer? && u != t {
      assert e.schedule(event.now).IsZero() || e.schedule(event.now).After(event.now);
      assert u.launched[|t.launched|] == (t.next, event.now);
      assert forall i :: 0 <= i < |t.launched| ==> u.launched[i] == t.launched[i];
    }
  }

  /** The launches so far are in order, whatever comes next. */
  predicate Launched(launched: seq<(Time, Time)>) { InOrder(Track(true, ZERO_TIME, launched)) }

  /** The launches so far are in order, and the next activation is zero or later than the last. */
  predicate GoesForward(launched: seq<(Time, Time)>, next: Time) {
    Launched(launched) && (launched == [] || next.IsZero() || launched[|launched| - 1].0.Before(next))
  }

  /** An entry starts again in order exactly when its launches were in order and its first activation
      is zero or later than its last one. */
  lemma RestartInOrder(next: Time, launched: seq<(Time, Time)>)
    ensures InOrder(Track(true, next, launched)) <==> GoesForward(launched, next)
  {
    var t := Track(true, next, launched);
    if launched != [] && !next.IsZero() {
      var last := |launched| - 1;
      assert InOrder(t) ==> launched[last].0.Before(next);
      assert Launched(launched) ==> forall i :: 0 <= i < last ==> launched[i].0.Before(launched[last].0);
    }
  }

  lemma OneLaunch(e: Entry, at: Time)
    ensures LaunchesOf([Launch(e, at, at)], e) == [(at, at)]
    ensures Launched([(at, at)])
  {
    assert [Launch(e, at, at)][..0] == [];
  }

  /** A clock that is set back before a restart makes activation times fall back: launched at
      second 10 on time, restarted at second 3, an entry that recurs every second is launched for
      second 4. */
  lemma ClockSetBack(e: Entry)
    requires e.schedule == ((t: Time) => Every(SECOND).Next(t))
    ensures var ten := Time(10, 0, 0);
      var start := StartTrack(e, true, Time(3, 0, 0), [Launch(e, ten, ten)]);
      && GoodSchedule(e.schedule) && Launched(start.launched)
      && FollowEvent(e, start, Timer(Time(4, 0, 0))).launched == [(ten, ten), (Time(4, 0, 0), Time(4, 0, 0))]
      && !InOrder(start) && !InOrder(FollowEvent(e, start, Timer(Time(4, 0, 0))))
  {
    hide Every, GoodSchedule, LaunchesOf, InOrder, Launched;
    EveryIsGood(SECOND);
    EveryActivations(SECOND, Time(3, 0, 0));
    var ten := Time(10, 0, 0);
    OneLaunch(e, ten);
    assert e.schedule(Time(3, 0, 0)) == Time(4, 0, 0);
    RestartInOrder(Time(4, 0, 0), [(ten, ten)]);
    EventInOrder(e, StartTrack(e, true, Time(3, 0, 0), [Launch(e, ten, ten)]), Timer(Time(4, 0, 0)));
  }

  /** How an entry enters a run that starts at `start` with the given earlier launches. */
  function StartTrack(e: Entry, present: bool, start: Time, launches: seq<Launch>): Track {
    if present then Track(true, e.schedule(start), LaunchesOf(launches, e))
    else Track(false, ZERO_TIME, [])
  }

  lemma StopsInOrder(e: Entry, present: bool, start: Time, launches: seq<Launch>, events: seq<Event>, i: nat)
    requires GoodSchedule(e.schedule) && i <= |events|
    requires present ==> forall i :: 0 <= i < |events| && events[i].NewEntry? ==> events[i].entry != e
    requires forall i, j :: 0 <= i < j < |events| && events[i].NewEntry? && events[j].NewEntry? ==>
      events[i].entry != events[j].entry
    ensures var t := StartTrack(e, present, start, launches);
      && (InOrder(Follow(e, t, events[..i])) <==> InOrder(t))
      && (!present ==> InOrder(t))
      && (present ==> (InOrder(t) <==> GoesForward(LaunchesOf(launches, e), e.schedule(start))))
  {
    FollowInOrder(e, StartTrack(e, present, start, launches), events[..i]);
    RestartInOrder(e.schedule(start), LaunchesOf(launches, e));
  }

  function UntilStop(events: seq<Event>): seq<Event> {
    if events == [] || events[0].StopRequest? then [] else [events[0]] + UntilStop(events[1..])
  }

  lemma {:induction false} UntilStopIs(events: seq<Event>, i: nat)
    requires i <= |events| && (i < |events| ==> events[i].StopRequest?)
    requires forall j :: 0 <= j < i ==> !events[j].StopRequest?
    ensures UntilStop(events) == events[..i]
  {
    if i > 0 {
      UntilStopIs(events[1..], i - 1);
      assert events[..i] == [events[0]] + events[1..][..i - 1];
    }
  }

  function EventEntries(events: seq<Event>): set<Entry> {
    set i | 0 <= i < |events| && events[i].NewEntry? :: events[i].entry
  }

  lemma EventEntriesStep(events: seq<Event>, i: nat)
    requires i < |events|
    ensures EventEntries(events[..i + 1])
      == EventEntries(events[..i]) + (if events[i].NewEntry? then {events[i].entry} else {})
    ensures EventEntries(events[..i + 1]) <= EventEntries(events)
    ensures forall e :: e in EventEntries(events[..i]) ==>
      exists j :: 0 <= j < i && events[j].NewEntry? && events[j].entry == e
  {
    var before, after := events[..i], events[..i + 1];
    assert forall j :: 0 <= j < i ==> before[j] == after[j] == events[j];
    assert after[i] == events[i];
    forall e | e in EventEntries(after)
      ensures e in EventEntries(before) || (events[i].NewEntry? && e == events[i].entry)
    {
      var j :| 0 <= j < |after| && after[j].NewEntry? && after[j].entry == e;
      assert j < i ==> before[j].NewEntry? && before[j].entry == e;
    }
  }

  class Cron {
    var entries: seq<Entry>
    var running: bool
    ghost var launches: seq<Launch>

    /** Entries have schedules that move forward, and launches are of entries that were due. */
    ghost predicate Valid()
      reads this, entries
    {
      && Distinct(entries)
      && (forall e :: e in entries ==> GoodSchedule(e.schedule))
      && (forall l :: l in launches ==>
            l.entry in entries && !l.at.IsZero() && !l.at.After(l.now))
    }

    constructor ()
      ensures Valid() && entries == [] && !running && launches == []
    {
      entries, running, launches := [], false, [];
    }

    lemma GoodEntry(e: Entry)
      requires Valid() && e in entries
      ensures GoodSchedule(e.schedule)
    {
    }

    /** Adds an entry to a scheduler that is not running. */
    method Schedule(schedule: Time -> Time, job: int) returns (e: Entry)
      requires Valid() && !running && GoodSchedule(schedule)
      modifies this
      ensures Valid() && fresh(e) && entries == old(entries) + [e]
      ensures e.schedule == schedule && e.job == job && e.next.IsZero() && e.prev.IsZero()
      ensures launches == old(launches) && !running
    {
      e := new Entry(schedule, job, ZERO_TIME, ZERO_TIME);
      entries := entries + [e];
    }

    /** The start of run: every entry gets its first activation after `now`. */
    method Begin(now: Time)
      requires Valid() && !running
      modifies this`running, entries
      ensures Valid() && running && entries == old(entries) && launches == old(launches)
      ensures forall e :: e in entries ==> e.next == e.schedule(now) && e.prev == old(e.prev)
      ensures forall e :: e in entries ==> !e.Due(now)
      ensures forall e :: e in entries ==> TrackOf(e) == StartTrack(e, true, now, old(launches))
    {
      running := true;
      for i := 0 to |entries|
        invariant running
        invariant forall k :: 0 <= k < i ==> entries[k].next == entries[k].schedule(now)
        invariant forall k :: 0 <= k < |entries| ==> entries[k].prev == old(entries[k].prev)
      {
        entries[i].next := entries[i].schedule(now);
      }
    }

    /** The timer waits for the first entry, or has nothing to wait for. */
    method Timer() returns (wake: Time)
      requires Valid() && Sorted(entries)
      ensures wake.IsZero() <==> forall e :: e in entries ==> e.next.IsZero()
      ensures forall e :: e in entries && !e.next.IsZero() ==> !wake.After(e.next)
      ensures !wake.IsZero() ==> exists e :: e in entries && e.next == wake
    {
      if |entries| == 0 || entries[0].next.IsZero() {
        wake := ZERO_TIME;
        forall i | 0 <= i < |entries|
          ensures entries[i].next.IsZero()
        {
          assert i > 0 ==> !Less(entries[i], entries[0]);
        }
      } else {
        wake := entries[0].next;
        forall i | 0 <= i < |entries| && !entries[i].next.IsZero()
          ensures !wake.After(entries[i].next)
        {
          assert i > 0 ==> !Less(entries[i], entries[0]);
        }
        assert entries[0] in entries;
      }
    }

    /** The loop of a timer event: fires the entries at the front of the sorted list that are due. */
    method Fire(now: Time) returns (ghost fired: seq<Launch>)
      requires Distinct(entries) && Sorted(entries)
      modifies this`launches, entries
      ensures entries == old(entries)
      ensures launches == old(launches) + fired && |fired| <= |entries|
      ensures forall k :: 0 <= k < |fired| ==>
        && fired[k] == Launch(entries[k], old(entries[k].next), now)
        && old(entries[k].Due(now)) && entries[k].prev == old(entries[k].next)
        && entries[k].next == entries[k].schedule(now)
      ensures forall k :: |fired| <= k < |entries| ==>
        && !old(entries[k].Due(now))
        && entries[k].prev == old(entries[k].prev) && entries[k].next == old(entries[k].next)
    {
      fired := [];
      var i := 0;
      while i < |entries| && !(entries[i].next.After(now) || entries[i].next.IsZero())
        invariant 0 <= i <= |entries|
        invariant launches == old(launches) + fired && |fired| == i
        invariant forall k :: 0 <= k < i ==>
          && fired[k] == Launch(entries[k], old(entries[k].next), now)
          && old(entries[k].Due(now)) && entries[k].prev == old(entries[k].next)
          && entries[k].next == entries[k].schedule(now)
        invariant forall k :: i <= k < |entries| ==>
          entries[k].prev == old(entries[k].prev) && entries[k].next == old(entries[k].next)
      {
        var e := entries[i];
        launches := launches + [Launch(e, e.next, now)];
        fired := fired + [Launch(e, e.next, now)];
        e.prev := e.next;
        e.next := e.schedule(now);
        i := i + 1;
      }
      forall k | i <= k < |entries|
        ensures !old(entries[k].Due(now))
      {
        assert k > i ==> !old(Less(entries[k], entries[i]));
      }
    }

    method FireValidly(now: Time) returns (ghost fired: seq<Launch>)
      requires Valid() && Sorted(entries)
      modifies this`launches, entries
      ensures Valid() && entries == old(entries)
      ensures launches == old(launches) + fired && |fired| <= |entries|
      ensures forall k :: 0 <= k < |fired| ==>
        && fired[k] == Launch(entries[k], old(entries[k].next), now)
        && old(entries[k].Due(now)) && entries[k].prev == old(entries[k].next)
        && entries[k].next == entries[k].schedule(now)
      ensures forall k :: |fired| <= k < |entries| ==>
        && !old(entries[k].Due(now))
        && entries[k].prev == old(entries[k].prev) && entries[k].next == old(entries[k].next)
      ensures forall k :: 0 <= k < |entries| ==> !entries[k].Due(now)
    {
      fired := Fire(now);
      assert forall k :: 0 <= k < |entries| ==> GoodSchedule(entries[k].schedule);
    }

    /** A timer event launches exactly the due entries, once each, at their activation
        times; afterwards nothing is due. */
    method Tick(now: Time)
      requires Valid() && running && Sorted(entries)
      modifies this`launches, entries
      ensures Valid() && entries == old(entries)
      ensures forall e :: e in entries ==>
        if old(e.Due(now)) then
          && LaunchesOf(launches, e) == LaunchesOf(old(launches), e) + [(old(e.next), now)]
          && e.prev == old(e.next) && e.next == e.schedule(now)
        else
          && LaunchesOf(launches, e) == LaunchesOf(old(launches), e)
          && e.prev == old(e.prev) && e.next == old(e.next)
      ensures forall e :: e in entries ==> !e.Due(now)
    {
      ghost var fired := FireValidly(now);
      forall e | e in entries
        ensures LaunchesOf(launches, e) ==
          LaunchesOf(old(launches), e) + (if old(e.Due(now)) then [(old(e.next), now)] else [])
      {
        var k :| 0 <= k < |entries| && entries[k] == e;
        LaunchesOfConcat(old(launches), fired, e);
        LaunchesOfFront(entries, fired, k);
      }
    }

    /** A new entry arrives while running. */
    method Add(e: Entry, now: Time)
      requires Valid() && running && e !in entries && GoodSchedule(e.schedule)
      modifies this`entries, e
      ensures Valid() && running && entries == old(entries) + [e] && launches == old(launches)
      ensures e.next == e.schedule(now) && e.prev == old(e.prev)
    {
      e.next := e.schedule(now);
      entries := entries + [e];
    }

    /** Sorts the entry list by next activation; the entries themselves do not change. */
    method Sort()
      requires Valid()
      modifies this`entries
      ensures Valid() && Sorted(entries)
      ensures multiset(entries) == old(multiset(entries))
      ensures forall e :: e in entries <==> e in old(entries)
    {
      var es := entries;
      var sorted: seq<Entry> := [];
      for i := 0 to |es|
        invariant Sorted(sorted) && Distinct(sorted)
        invariant multiset(sorted) == multiset(es[..i])
      {
        assert es[..i + 1] == es[..i] + [es[i]];
        SameElements(sorted, es[..i]);
        sorted := InsertSorted(sorted, es[i]);
      }
      assert es[..|es|] == es;
      SameElements(es, sorted);
      entries := sorted;
    }

    /** A snapshot is a list of copies: later ticks do not change it. */
    method EntrySnapshot() returns (copies: seq<Entry>)
      ensures |copies| == |entries| && Distinct(copies)
      ensures forall i :: 0 <= i < |entries| ==>
        && fresh(copies[i])
        && copies[i].schedule == entries[i].schedule && copies[i].job == entries[i].job
        && copies[i].next == entries[i].next && copies[i].prev == entries[i].prev
    {
      copies := [];
      for i := 0 to |entries|
        invariant |copies| == i && Distinct(copies)
        invariant forall k :: 0 <= k < i ==>
          && fresh(copies[k])
          && copies[k].schedule == entries[k].schedule && copies[k].job == entries[k].job
          && copies[k].next == entries[k].next && copies[k].prev == entries[k].prev
      {
        var e := entries[i];
        var copy := new Entry(e.schedule, e.job, e.next, e.prev);
        copies := copies + [copy];
      }
    }

    /** One event of the running scheduler, as each entry sees it. */
    method Handle(event: Event)
      requires Valid() && running && Sorted(entries) && !event.StopRequest?
      requires event.NewEntry? ==> event.entry !in entries && GoodSchedule(event.entry.schedule)
      modifies this`entries, this`launches, entries, EventEntries([event])
      ensures Valid() && (event.SnapshotRequest? ==> Sorted(entries))
      ensures forall e :: e in entries <==> e in old(entries) || (event.NewEntry? && e == event.entry)
      ensures forall e :: e in entries ==>
        Track(true, e.next, LaunchesOf(launches, e)) == FollowEvent(e, old(TrackOf(e)), event)
    {
      assert event.NewEntry? ==> [event][0].entry in EventEntries([event]);
      match event {
        case Timer(now) =>
          Tick(now);
        case NewEntry(e, now) =>
          NotLaunched(launches, e);
          Add(e, now);
        case SnapshotRequest =>
          var _ := EntrySnapshot();
      }
    }

    /** Stops the scheduler; a stopped one is left alone. */
    method Stop()
      requires Valid()
      modifies this`running
      ensures Valid() && !running
    {
      running := false;
    }

    ghost function TrackOf(e: Entry): Track
      reads this, e
    {
      if e in entries then Track(true, e.next, LaunchesOf(launches, e)) else Track(false, ZERO_TIME, [])
    }

    /** The scheduler from start to stop, for any sequence of events and any clock: every entry is
        launched as if it were alone. The activation times of an entry that was there before strictly
        increase, over earlier runs too, if and only if they did before and its first activation is
        zero or later than the last; those of a new entry always do. */
    method Run(start: Time, events: seq<Event>)
      requires Valid() && !running
      requires forall i :: 0 <= i < |events| && events[i].NewEntry? ==>
        events[i].entry !in entries && GoodSchedule(events[i].entry.schedule)
      requires forall i, j :: 0 <= i < j < |events| && events[i].NewEntry? && events[j].NewEntry? ==>
        events[i].entry != events[j].entry
      modifies this, entries, EventEntries(events)
      ensures Valid() && !running
      ensures forall e :: e in entries <==> e in old(entries) || e in EventEntries(UntilStop(events))
      ensures forall e :: e in entries ==>
        TrackOf(e) == Follow(e, StartTrack(e, e in old(entries), start, old(launches)), UntilStop(events))
      ensures forall e :: e in entries && e !in old(entries) ==> InOrder(TrackOf(e))
      ensures forall e :: e in old(entries) ==>
        (InOrder(TrackOf(e)) <==> GoesForward(LaunchesOf(old(launches), e), e.schedule(start)))
    {
      hide LaunchesOf, UntilStop, Sorted, Distinct, GoodSchedule, Time.IsZero, Time.After, Cron.Valid, FollowEvent,
        InOrder, GoesForward;
      ghost var first, before := entries, launches;
      Begin(start);
      var sorted := false;
      var i := 0;
      while i < |events| && !events[i].StopRequest?
        invariant 0 <= i <= |events|
        invariant Valid() && running
        invariant sorted ==> Sorted(entries)
        invariant forall j :: 0 <= j < i ==> !events[j].StopRequest?
        invariant forall e :: e in entries <==> e in first || e in EventEntries(events[..i])
        invariant forall e :: e in entries ==>
          TrackOf(e) == Follow(e, StartTrack(e, e in first, start, before), events[..i])
      {
        EventEntriesStep(events, i);
        forall e: Entry {
          FollowOne(e, StartTrack(e, e in first, start, before), events, i);
        }
        if events[i].NewEntry? {
          FollowIdle(events[i].entry, events[..i]);
        }
        if !sorted {
          Sort();
        }
        Handle(events[i]);
        sorted := events[i].SnapshotRequest?;
        i := i + 1;
      }
      UntilStopIs(events, i);
      Stop();
      forall e | e in entries
        ensures e !in first ==> InOrder(TrackOf(e))
        ensures e in first ==> (InOrder(TrackOf(e)) <==> GoesForward(LaunchesOf(before, e), e.schedule(start)))
      {
        GoodEntry(e);
        StopsInOrder(e, e in first, start, before, events, i);
      }
    }
  }
}
