/**
  The background thread that waits until every application reported to be ready often enough.
 */
module StatusCounter {

  const STATUS_READY := "ready"

  /** What an iteration of the loop meets: a stop request, an empty queue, or a message. */
  datatype Event = Stop | Nothing | Message(status: string, app: string)

  predicate Reports(e: Event, app: string) {
    e.Message? && e.app == app
  }

  /** The length of the last unbroken run of ready messages of `app`. */
  function Trailing(events: seq<Event>, app: string): nat {
    if events == [] then 0
    else
      var last, before := events[|events| - 1], events[..|events| - 1];
      if !Reports(last, app) then Trailing(before, app)
      else if last.status == STATUS_READY then Trailing(before, app) + 1
      else 0
  }

  /** What `app` reported, in order. */
  function Reported(events: seq<Event>, app: string): seq<string> {
    if events == [] then []
    else
      var last, before := events[|events| - 1], Reported(events[..|events| - 1], app);
      if Reports(last, app) then before + [last.status] else before
  }

  ghost predicate LatestReady(events: seq<Event>, app: string, n: nat) {
    var reported := Reported(events, app);
    |reported| >= n && forall i :: |reported| - n <= i < |reported| ==> reported[i] == "ready"
  }

  /** The run is that long exactly when that many latest reports were ready. */
  lemma {:induction false} TrailingCountsLatest(events: seq<Event>, app: string, n: nat)
    ensures Trailing(events, app) >= n <==> LatestReady(events, app, n)
  {
    if events != [] {
      var last, before := events[|events| - 1], events[..|events| - 1];
      var reported := Reported(before, app);
      if Reports(last, app) && n > 0 {
        TrailingCountsLatest(before, app, n - 1);
        assert Reported(events, app)[|reported|] == last.status;
        assert forall i :: 0 <= i < |reported| ==> Reported(events, app)[i] == reported[i];
      } else {
        TrailingCountsLatest(before, app, n);
      }
    }
  }

  ghost predicate Distinct(s: seq<string>) {
    forall i, j :: 0 <= i < j < |s| ==> s[i] != s[j]
  }

  function AsSet(s: seq<string>): set<string> {
    set a | a in s
  }

  lemma {:induction false} DistinctIffAsMany(s: seq<string>)
    ensures |AsSet(s)| <= |s| && (|AsSet(s)| == |s| <==> Distinct(s))
  {
    if s != [] {
      var rest := s[1..];
      DistinctIffAsMany(rest);
      assert AsSet(s) == AsSet(rest) + {s[0]};
      if s[0] in rest {
        var j :| 0 <= j < |rest| && rest[j] == s[0];
        assert s[j + 1] == s[0] && AsSet(s) == AsSet(rest);
      } else {
        assert forall i, j :: 0 <= i < j < |s| ==> s[j] == rest[j - 1] && (i > 0 ==> s[i] == rest[i - 1]);
        if Distinct(s) {
          assert forall i, j :: 0 <= i < j < |rest| ==> rest[i] == s[i + 1] && rest[j] == s[j + 1];
        }
      }
    }
  }

  function Active(apps: map<string, nat>): nat {
    |set a | a in apps && apps[a] >= 4|
  }

  /** Every application of a list without repetition is online. */
  ghost predicate AllOnline(applications: seq<string>, events: seq<Event>) {
    Distinct(applications) && forall a <- applications :: LatestReady(events, a, 4)
  }

  /** Every application is online after `k` events, none of which was a stop request. */
  ghost predicate OnlineAt(applications: seq<string>, events: seq<Event>, k: nat) {
    k <= |events| && Stop !in events[..k] && AllOnline(applications, events[..k])
  }

  /** Up to this many events not all were online. */
  ghost predicate NotYet(applications: seq<string>, events: seq<Event>, i: nat)
    requires i <= |events|
  {
    forall j :: 0 <= j < i ==> !AllOnline(applications, events[..j])
  }

  lemma NotOnlineAfterStop(applications: seq<string>, events: seq<Event>, i: nat)
    requires i < |events| && events[i] == Stop
    requires NotYet(applications, events, i) && !AllOnline(applications, events[..i])
    ensures forall k :: !OnlineAt(applications, events, k)
  {
    forall k | i < k <= |events| ensures Stop in events[..k] {
      assert events[..k][i] == Stop;
    }
  }

  lemma NeverOnline(applications: seq<string>, events: seq<Event>)
    requires NotYet(applications, events, |events|) && !AllOnline(applications, events[..|events|])
    ensures forall k :: !OnlineAt(applications, events, k)
    ensures events[..|events|] == events
  {
  }

  ghost predicate Counts(apps: map<string, nat>, applications: seq<string>, events: seq<Event>) {
    apps.Keys == AsSet(applications) && forall a <- apps :: apps[a] == Trailing(events, a)
  }

  lemma EnoughActiveIffAllOnline(apps: map<string, nat>, applications: seq<string>, events: seq<Event>)
    requires Counts(apps, applications, events)
    ensures Active(apps) >= |applications| <==> AllOnline(applications, events)
  {
    var active := set a | a in apps && apps[a] >= 4;
    DistinctIffAsMany(applications);
    SubsetIsSmaller(active, apps.Keys);
    forall a | a in applications ensures a in apps && (apps[a] >= 4 <==> LatestReady(events, a, 4)) {
      assert a in AsSet(applications);
      TrailingCountsLatest(events, a, 4);
    }
    if AllOnline(applications, events) {
      assert active == apps.Keys;
    }
    if Active(apps) >= |applications| {
      assert active == apps.Keys;
    }
  }

  lemma SubsetIsSmaller(a: set<string>, b: set<string>)
    requires a <= b
    ensures |a| <= |b| && (|a| == |b| ==> a == b)
  {
    assert b == a + (b - a);
    assert |b| == |a| + |b - a|;
  }

  method NbActiveApps(apps: map<string, nat>) returns (n: nat)
    ensures n == Active(apps)
  {
    n := 0;
    var rest := apps.Keys;
    ghost var seen: set<string> := {};
    while rest != {}
      invariant seen == apps.Keys - rest && rest <= apps.Keys
      invariant n == |set a | a in seen && apps[a] >= 4|
    {
      var a :| a in rest;
      var before := set a' | a' in seen && apps[a'] >= 4;
      seen, rest := seen + {a}, rest - {a};
      if apps[a] >= 4 {
        n := n + 1;
        assert (set a' | a' in seen && apps[a'] >= 4) == before + {a};
      } else {
        assert (set a' | a' in seen && apps[a'] >= 4) == before;
      }
    }
    assert (set a | a in seen && apps[a] >= 4) == set a | a in apps && apps[a] >= 4;
  }

  datatype Outcome =
    | NoStatus
    | AllServicesOnline(after: nat)
    | Stopped(at: nat)
    | StillWaiting

  class UpdateStatusThread {
    const applications: seq<string>
    const hasStatus: bool      // is there a status line to keep up to date?
    var apps: map<string, nat>

    constructor (applications: seq<string>, hasStatus: bool)
      ensures this.applications == applications && this.hasStatus == hasStatus
    {
      this.applications, this.hasStatus := applications, hasStatus;
      apps := map[];
    }

    /** Takes in what the queue gave, and recounts after a message. */
    method Receive(event: Event, nbActive: nat, ghost seen: seq<Event>) returns (n: nat)
      requires Counts(apps, applications, seen) && nbActive == Active(apps)
      modifies this
      ensures Counts(apps, applications, seen + [event]) && n == Active(apps)
    {
      ghost var now := seen + [event];
      assert now[..|now| - 1] == seen;
      if !event.Message? || event.app !in apps {
        return nbActive;
      }
      if event.status == STATUS_READY {
        apps := apps[event.app := apps[event.app] + 1];
      } else {
        apps := apps[event.app := 0];
      }
      n := NbActiveApps(apps);
    }

    /**
      The loop, on what its iterations meet.  It ends at the first moment at which every application
      is online, unless it was stopped before; without a status line it is not entered.
     */
    method Run(events: seq<Event>) returns (outcome: Outcome)
      modifies this
      ensures outcome.NoStatus? <==> !hasStatus
      ensures !hasStatus ==> apps == old(apps)
      ensures outcome.AllServicesOnline? <==> hasStatus && exists k :: OnlineAt(applications, events, k)
      ensures outcome.AllServicesOnline? ==>
                && outcome.after <= |events| && AllOnline(applications, events[..outcome.after])
                && forall j :: 0 <= j < outcome.after ==> !AllOnline(applications, events[..j])
      ensures outcome.StillWaiting? ==> Stop !in events
      ensures outcome.Stopped? ==> outcome.at < |events| && events[outcome.at] == Stop && Stop !in events[..outcome.at]
      ensures match outcome
              case AllServicesOnline(k) => Counts(apps, applications, events[..k])
              case Stopped(k) => Counts(apps, applications, events[..k])
              case StillWaiting => Counts(apps, applications, events)
              case NoStatus => true
    {
      if !hasStatus {
        return NoStatus;
      }
      apps := map a | a in applications :: 0;
      var nbActive := 0;
      assert (set a | a in apps && apps[a] >= 4) == {};
      var i := 0;
      EnoughActiveIffAllOnline(apps, applications, events[..0]);
      while nbActive < |applications|
        invariant i <= |events| && Stop !in events[..i]
        invariant Counts(apps, applications, events[..i]) && nbActive == Active(apps)
        invariant NotYet(applications, events, i)
        decreases |events| - i
      {
        EnoughActiveIffAllOnline(apps, applications, events[..i]);
        if i == |events| {
          NeverOnline(applications, events);
          return StillWaiting;
        }
        if events[i] == Stop {
          NotOnlineAfterStop(applications, events, i);
          return Stopped(i);
        }
        assert events[..i + 1] == events[..i] + [events[i]];
        nbActive := Receive(events[i], nbActive, events[..i]);
        i := i + 1;
      }
      EnoughActiveIffAllOnline(apps, applications, events[..i]);
      assert OnlineAt(applications, events, i);
      outcome := AllServicesOnline(i);
    }
  }
}
