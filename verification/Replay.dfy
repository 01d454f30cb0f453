/**
 Replay protection of signed requests: the clock window of `verify_request`, the two
 replay guards behind it, and what a whole run of requests accepts.
 */
module Replay {

  datatype Key = Key(environment: string, keyId: string, nonce: string)

  /** A signed request as the verifier sees it; the two flags stand for the header and signature checks. */
  datatype Request = Request(key: Key, timestamp: int, headersValid: bool, signatureValid: bool)

  datatype Verdict = Accepted | AuthenticationFailed | RequestExpired | RequestReplayed

  datatype Event = Event(request: Request, now: int)

  datatype GuardKind = InMemory | Durable

  type Claims = map<Key, int>

  function Live(claims: Claims, seenAt: int): Claims {
    map k | k in claims && claims[k] >= seenAt :: claims[k]
  }

  /** One claim: the in-memory guard keeps its purge on a duplicate, the SQLite guard rolls it back. */
  function Claim(kind: GuardKind, claims: Claims, key: Key, seenAt: int, expiresAt: int): (Claims, bool) {
    var live := Live(claims, seenAt);
    if key !in live then (live[key := expiresAt], true)
    else if kind == InMemory then (live, false)
    else (claims, false)
  }

  /** The verifier: cheap checks first, the nonce is claimed only by an authentic request in its window. */
  function Verify(kind: GuardKind, claims: Claims, request: Request, now: int, skew: nat): (Claims, Verdict) {
    if !request.headersValid then (claims, AuthenticationFailed)
    else if now - request.timestamp > skew || request.timestamp - now > skew then (claims, RequestExpired)
    else if !request.signatureValid then (claims, AuthenticationFailed)
    else
      var (claims', unused) := Claim(kind, claims, request.key, now, request.timestamp + skew);
      (claims', if unused then Accepted else RequestReplayed)
  }

  /** Process-local guard: a dictionary whose expired entries are popped one by one. */
  class InMemoryReplayGuard {
    var claims: Claims

    constructor ()
      ensures claims == map[]
    {
      claims := map[];
    }

    method TryClaim(key: Key, seenAt: int, expiresAt: int) returns (unused: bool)
      modifies this
      ensures (claims, unused) == Claim(InMemory, old(claims), key, seenAt, expiresAt)
    {
      var expired := set k | k in claims && claims[k] < seenAt;
      while expired != {}
        invariant expired == set k | k in claims && claims[k] < seenAt
        invariant Live(claims, seenAt) == Live(old(claims), seenAt)
        decreases expired
      {
        var k :| k in expired;
        claims := claims - {k};
        expired := expired - {k};
      }
      assert forall k :: k in claims ==> k !in expired;
      assert claims == Live(claims, seenAt);
      if key in claims {
        return false;
      }
      claims := claims[key := expiresAt];
      return true;
    }
  }

  /** SQLite guard: the purge and the insert share one transaction, undone when the primary key is taken. */
  class DurableReplayGuard {
    var rows: Claims

    constructor ()
      ensures rows == map[]
    {
      rows := map[];
    }

    method TryClaim(key: Key, seenAt: int, expiresAt: int) returns (unused: bool)
      modifies this
      ensures (rows, unused) == Claim(Durable, old(rows), key, seenAt, expiresAt)
    {
      var begin := rows;
      rows := map k | k in rows && !(rows[k] < seenAt) :: rows[k];
      assert rows == Live(begin, seenAt);
      if key in rows {
        rows := begin;
        return false;
      }
      rows := rows[key := expiresAt];
      return true;
    }
  }

  // ---------------------------------------------------------------- whole runs

  ghost predicate ClockNondecreasing(events: seq<Event>) {
    forall i, j :: 0 <= i < j < |events| ==> events[i].now <= events[j].now
  }

  function Run(kind: GuardKind, events: seq<Event>, skew: nat): (r: (Claims, seq<Verdict>))
    ensures |r.1| == |events|
  {
    if events == [] then (map[], [])
    else
      var (claims, verdicts) := Run(kind, events[..|events| - 1], skew);
      var e := events[|events| - 1];
      var (claims', v) := Verify(kind, claims, e.request, e.now, skew);
      (claims', verdicts + [v])
  }

  ghost predicate InWindow(e: Event, skew: nat) {
    -(skew as int) <= e.now - e.request.timestamp <= skew
  }

  /** The event was preceded by an accepted one with its nonce whose signing window is still open. */
  ghost predicate StillClaimed(events: seq<Event>, verdicts: seq<Verdict>, key: Key, now: int, skew: nat)
    requires |verdicts| <= |events|
  {
    exists j :: 0 <= j < |verdicts| && verdicts[j] == Accepted
                && events[j].request.key == key && events[j].request.timestamp + skew >= now
  }

  /** What a run should answer, told from the past verdicts alone: no table, no purge. */
  ghost function Ideal(events: seq<Event>, skew: nat): (verdicts: seq<Verdict>)
    ensures |verdicts| == |events|
  {
    if events == [] then []
    else
      var past := Ideal(events[..|events| - 1], skew);
      var e := events[|events| - 1];
      past + [
        if !e.request.headersValid then AuthenticationFailed
        else if !InWindow(e, skew) then RequestExpired
        else if !e.request.signatureValid then AuthenticationFailed
        else if StillClaimed(events, past, e.request.key, e.now, skew) then RequestReplayed
        else Accepted
      ]
  }

  /** Every row stems from an accepted event, and an accepted event is in the table until its window closes. */
  ghost predicate TableTracks(claims: Claims, events: seq<Event>, verdicts: seq<Verdict>, now: int, skew: nat)
    requires |verdicts| == |events|
  {
    && (forall k :: k in claims ==> StillClaimed(events, verdicts, k, claims[k], skew))
    && (forall j :: 0 <= j < |events| && verdicts[j] == Accepted && events[j].request.timestamp + skew >= now ==>
          events[j].request.key in claims
          && claims[events[j].request.key] >= events[j].request.timestamp + skew)
  }

  lemma {:induction false} TableStep(kind: GuardKind, claims: Claims, events: seq<Event>, verdicts: seq<Verdict>,
                                     e: Event, skew: nat)
    requires |verdicts| == |events|
    requires TableTracks(claims, events, verdicts, e.now, skew)
    ensures var (claims', v) := Verify(kind, claims, e.request, e.now, skew);
            && TableTracks(claims', events + [e], verdicts + [v], e.now, skew)
            && (v == RequestReplayed ==> StillClaimed(events, verdicts, e.request.key, e.now, skew))
            && (v == Accepted ==> !StillClaimed(events, verdicts, e.request.key, e.now, skew))
  {
    var (claims', v) := Verify(kind, claims, e.request, e.now, skew);
    var events', verdicts' := events + [e], verdicts + [v];
    forall k | k in claims' ensures StillClaimed(events', verdicts', k, claims'[k], skew) {
      if k in claims && claims'[k] == claims[k] {
        var j :| 0 <= j < |verdicts| && verdicts[j] == Accepted
                 && events[j].request.key == k && events[j].request.timestamp + skew >= claims[k];
        assert verdicts'[j] == Accepted && events'[j] == events[j];
      } else {
        assert verdicts'[|events|] == Accepted && events'[|events|] == e;
      }
    }
    if v == RequestReplayed {
      var k := e.request.key;
      var j :| 0 <= j < |verdicts| && verdicts[j] == Accepted
               && events[j].request.key == k && events[j].request.timestamp + skew >= claims[k];
      assert events[j].request.timestamp + skew >= e.now;
    }
  }

  lemma EmptyTracks(now: int, skew: nat)
    ensures TableTracks(map[], [], [], now, skew)
  {
  }

  lemma {:induction false} RunTracks(kind: GuardKind, events: seq<Event>, skew: nat, now: int)
    requires ClockNondecreasing(events)
    requires forall i :: 0 <= i < |events| ==> events[i].now <= now
    ensures Run(kind, events, skew).1 == Ideal(events, skew)
    ensures TableTracks(Run(kind, events, skew).0, events, Ideal(events, skew), now, skew)
  {
    hide TableTracks, StillClaimed;
    if events == [] {
      EmptyTracks(now, skew);
    } else {
      var past, e := events[..|events| - 1], events[|events| - 1];
      RunTracks(kind, past, skew, e.now);
      assert past + [e] == events;
      var claims, verdicts := Run(kind, past, skew).0, Ideal(past, skew);
      TableStep(kind, claims, past, verdicts, e, skew);
      ClaimedByPast(past, e, verdicts, e.request.key, e.now, skew);
      NowIsLater(Run(kind, events, skew).0, events, Ideal(events, skew), e.now, now, skew);
    }
  }

  lemma ClaimedByPast(past: seq<Event>, e: Event, verdicts: seq<Verdict>, key: Key, now: int, skew: nat)
    requires |verdicts| == |past|
    ensures StillClaimed(past + [e], verdicts, key, now, skew) == StillClaimed(past, verdicts, key, now, skew)
  {
  }

  lemma NowIsLater(claims: Claims, events: seq<Event>, verdicts: seq<Verdict>, now: int, later: int, skew: nat)
    requires |verdicts| == |events| && now <= later
    ensures TableTracks(claims, events, verdicts, now, skew) ==> TableTracks(claims, events, verdicts, later, skew)
  {
  }

  /**
   Either guard, purging as it goes, answers every run exactly as the table-free ideal:
   a request in its window is refused if and only if its nonce was accepted before and that
   acceptance is still inside its own window.
   */
  lemma {:induction false} GuardsMatchIdeal(kind: GuardKind, events: seq<Event>, skew: nat)
    requires ClockNondecreasing(events)
    ensures Run(kind, events, skew).1 == Ideal(events, skew)
  {
    if events != [] {
      RunTracks(kind, events, skew, events[|events| - 1].now);
    }
  }

  /** The SQLite guard, whose purge is rolled back on duplicates, is indistinguishable from the in-memory one. */
  lemma {:induction false} GuardsAgree(events: seq<Event>, skew: nat)
    requires ClockNondecreasing(events)
    ensures Run(Durable, events, skew).1 == Run(InMemory, events, skew).1
  {
    GuardsMatchIdeal(Durable, events, skew);
    GuardsMatchIdeal(InMemory, events, skew);
  }

  lemma {:induction false} IdealPrefix(events: seq<Event>, n: nat, skew: nat)
    requires n <= |events|
    ensures Ideal(events[..n], skew) == Ideal(events, skew)[..n]
  {
    if n < |events| {
      IdealPrefix(events[..|events| - 1], n, skew);
      assert events[..|events| - 1][..n] == events[..n];
    } else {
      assert events[..n] == events;
    }
  }

  /** No signed request is accepted twice, although expired nonces are purged all along. */
  lemma {:induction false} AtMostOnce(kind: GuardKind, events: seq<Event>, skew: nat, i: nat, j: nat)
    requires ClockNondecreasing(events)
    requires i < j < |events|
    requires events[i].request.key == events[j].request.key
    requires events[i].request.timestamp == events[j].request.timestamp
    ensures !(Run(kind, events, skew).1[i] == Accepted && Run(kind, events, skew).1[j] == Accepted)
  {
    GuardsMatchIdeal(kind, events, skew);
    var upTo := events[..j + 1];
    IdealPrefix(events, j + 1, skew);
    IdealPrefix(upTo, j, skew);
    assert upTo[..|upTo| - 1] == upTo[..j];
    if Ideal(events, skew)[i] == Accepted && InWindow(events[j], skew) {
      var past := Ideal(upTo[..j], skew);
      assert past[i] == Accepted && upTo[i] == events[i];
      assert StillClaimed(upTo, past, events[j].request.key, events[j].now, skew);
    }
  }

  /** A first presentation inside the window is never refused for replay: purging loses nothing and keeps nothing. */
  lemma {:induction false} FreshNonceIsAccepted(kind: GuardKind, events: seq<Event>, skew: nat)
    requires ClockNondecreasing(events) && events != []
    requires var e := events[|events| - 1];
             && e.request.headersValid && e.request.signatureValid && InWindow(e, skew)
             && forall j :: 0 <= j < |events| - 1 ==>
                  events[j].request.key != e.request.key || events[j].request.timestamp + skew < e.now
    ensures Run(kind, events, skew).1[|events| - 1] == Accepted
  {
    GuardsMatchIdeal(kind, events, skew);
  }
}
