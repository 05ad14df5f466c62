/**
 * Pairing a device with a one-time code (src/controllers/mobile.ts `handlePairing`).  Any number
 * of requests run concurrently; each is cut where it talks to the database: look the token up,
 * claim it with a conditional update, and, after further checks that may fail, insert the device.
 */
module Pairing {
  import opened Common

  datatype Token = Token(hash: string, expiresAt: int, usedAt: Option<int>)

  /** How far a request has come. */
  datatype Phase = LookedUp(token: nat) | Claimed(token: nat) | Finished

  datatype PairState = PairState(tokens: map<nat, Token>, requests: map<nat, Phase>, devices: seq<nat>)

  datatype PairEvent =
    | Issue(token: nat, hash: string, expiresAt: int)
    | LookUp(request: nat, hash: string, token: nat, now: int)
    | Claim(request: nat, now: int)
    | GiveUp(request: nat)
    | Register(request: nat)

  /** `devices` lists the token each paired device came from. */
  function PairStep(s: PairState, e: PairEvent): PairState {
    match e
    case Issue(t, hash, expiresAt) => if t in s.tokens then s else s.(tokens := s.tokens[t := Token(hash, expiresAt, None)])
    case LookUp(r, hash, t, now) =>
      if r in s.requests then s
      else if t in s.tokens && s.tokens[t].hash == hash && s.tokens[t].usedAt.None? && s.tokens[t].expiresAt >= now
      then s.(requests := s.requests[r := LookedUp(t)])
      else s.(requests := s.requests[r := Finished])
    case Claim(r, now) =>
      if r !in s.requests || !s.requests[r].LookedUp? then s
      else
        var t := s.requests[r].token;
        if t in s.tokens && s.tokens[t].usedAt.None?
        then s.(tokens := s.tokens[t := s.tokens[t].(usedAt := Some(now))], requests := s.requests[r := Claimed(t)])
        else s.(requests := s.requests[r := Finished])
    case GiveUp(r) => if r in s.requests then s.(requests := s.requests[r := Finished]) else s
    case Register(r) =>
      if r !in s.requests || !s.requests[r].Claimed? then s
      else s.(devices := s.devices + [s.requests[r].token], requests := s.requests[r := Finished])
  }

  function PairRun(s: PairState, events: seq<PairEvent>): PairState {
    if events == [] then s else PairStep(PairRun(s, events[..|events| - 1]), events[|events| - 1])
  }

  const NOTHING_PAIRED: PairState := PairState(map[], map[], [])

  ghost predicate Holds(s: PairState, r: nat, t: nat) {
    r in s.requests && s.requests[r] == Claimed(t)
  }

  ghost predicate Used(s: PairState, t: nat) {
    t in s.tokens && s.tokens[t].usedAt.Some?
  }

  /** A token is spent by at most one claim, which either is still held or has become at most one device. */
  ghost predicate PairInv(s: PairState) {
    && (forall r, t :: Holds(s, r, t) ==> Used(s, t) && t !in s.devices)
    && (forall q, r, t :: Holds(s, q, t) && Holds(s, r, t) ==> q == r)
    && (forall t :: t in s.devices ==> Used(s, t))
    && (forall i, j :: 0 <= i < j < |s.devices| ==> s.devices[i] != s.devices[j])
  }

  lemma PairStepKeeps(s: PairState, e: PairEvent)
    requires PairInv(s)
    ensures PairInv(PairStep(s, e))
  {
    var s' := PairStep(s, e);
    assert forall t :: Used(s, t) ==> Used(s', t);
    assert forall r, t :: Holds(s', r, t) ==> Holds(s, r, t) || (e.Claim? && r == e.request && !Used(s, t));
    if e.Register? && e.request in s.requests && s.requests[e.request].Claimed? {
      assert Holds(s, e.request, s.requests[e.request].token);
    }
  }

  lemma {:induction false} PairRunKeeps(s: PairState, events: seq<PairEvent>)
    requires PairInv(s)
    ensures PairInv(PairRun(s, events))
  {
    if events != [] {
      PairRunKeeps(s, events[..|events| - 1]);
      PairStepKeeps(PairRun(s, events[..|events| - 1]), events[|events| - 1]);
    }
  }

  /** However requests interleave, no token ever yields two devices. */
  lemma {:induction false} OneDevicePerToken(events: seq<PairEvent>)
    ensures var devices := PairRun(NOTHING_PAIRED, events).devices;
      forall i, j :: 0 <= i < j < |devices| ==> devices[i] != devices[j]
  {
    PairRunKeeps(NOTHING_PAIRED, events);
  }

  /** Claimed, with no request left that could register it. */
  ghost predicate Spent(s: PairState, t: nat) {
    Used(s, t) && forall r :: !Holds(s, r, t)
  }

  lemma SpentStays(s: PairState, e: PairEvent, t: nat)
    requires Spent(s, t)
    ensures Spent(PairStep(s, e), t)
    ensures t in PairStep(s, e).devices ==> t in s.devices
  {
    var s' := PairStep(s, e);
    assert forall r :: Holds(s', r, t) ==> Holds(s, r, t) || (e.Claim? && r == e.request && !Used(s, t));
    if e.Register? && e.request in s.requests && s.requests[e.request].Claimed? {
      assert Holds(s, e.request, s.requests[e.request].token);
    }
  }

  /** Once its claimer has failed or finished, a token yields no further device in any continuation. */
  lemma {:induction false} SpentTokenIsDead(s: PairState, events: seq<PairEvent>, t: nat)
    requires Spent(s, t)
    ensures Spent(PairRun(s, events), t)
    ensures t in PairRun(s, events).devices ==> t in s.devices
  {
    if events != [] {
      SpentTokenIsDead(s, events[..|events| - 1], t);
      SpentStays(PairRun(s, events[..|events| - 1]), events[|events| - 1], t);
    }
  }

  // ---------------------------------------------------------------- who gets paired

  /** The token was first issued with this hash, and is good until `now` at least. */
  ghost predicate IssuedAt(events: seq<PairEvent>, i: nat, t: nat, hash: string, now: int) {
    && i < |events| && events[i].Issue? && events[i].token == t && events[i].hash == hash && now <= events[i].expiresAt
    && forall h :: 0 <= h < i && events[h].Issue? ==> events[h].token != t
  }

  /** The request named the hash the token was issued with, no later than the token's expiry. */
  ghost predicate KnewTheCode(events: seq<PairEvent>, r: nat, t: nat) {
    exists j, i :: 0 <= i < j < |events| && events[j].LookUp? && events[j].request == r && events[j].token == t
                   && IssuedAt(events, i, t, events[j].hash, events[j].now)
  }

  /** After that the request claimed the token. */
  ghost predicate ClaimedAfter(events: seq<PairEvent>, r: nat, t: nat) {
    exists k :: 0 <= k < |events| && events[k].Claim? && events[k].request == r && KnewTheCode(events[..k], r, t)
  }

  /** And after that it registered a device. */
  ghost predicate RegisteredAfter(events: seq<PairEvent>, t: nat) {
    exists l :: 0 <= l < |events| && events[l].Register? && ClaimedAfter(events[..l], events[l].request, t)
  }

  lemma IssuedGrows(events: seq<PairEvent>, e: PairEvent, i: nat, t: nat, hash: string, now: int)
    requires IssuedAt(events, i, t, hash, now)
    ensures IssuedAt(events + [e], i, t, hash, now)
  {}

  lemma KnewGrows(events: seq<PairEvent>, e: PairEvent, r: nat, t: nat)
    requires KnewTheCode(events, r, t)
    ensures KnewTheCode(events + [e], r, t)
  {
    var j, i :| 0 <= i < j < |events| && events[j].LookUp? && events[j].request == r && events[j].token == t
                && IssuedAt(events, i, t, events[j].hash, events[j].now);
    assert (events + [e])[j] == events[j];
    IssuedGrows(events, e, i, t, events[j].hash, events[j].now);
  }

  lemma ClaimedGrows(events: seq<PairEvent>, e: PairEvent, r: nat, t: nat)
    requires ClaimedAfter(events, r, t)
    ensures ClaimedAfter(events + [e], r, t)
  {
    var k :| 0 <= k < |events| && events[k].Claim? && events[k].request == r && KnewTheCode(events[..k], r, t);
    assert (events + [e])[k] == events[k] && (events + [e])[..k] == events[..k];
  }

  lemma RegisteredGrows(events: seq<PairEvent>, e: PairEvent, t: nat)
    requires RegisteredAfter(events, t)
    ensures RegisteredAfter(events + [e], t)
  {
    var l :| 0 <= l < |events| && events[l].Register? && ClaimedAfter(events[..l], events[l].request, t);
    assert (events + [e])[l] == events[l] && (events + [e])[..l] == events[..l];
  }

  ghost predicate TokensIssued(s: PairState, events: seq<PairEvent>) {
    && (forall t :: t in s.tokens ==> exists i :: IssuedAt(events, i, t, s.tokens[t].hash, s.tokens[t].expiresAt))
    && (forall i :: 0 <= i < |events| && events[i].Issue? ==> events[i].token in s.tokens)
  }

  /** What the events so far must have been, for the state to be what it is. */
  ghost predicate Explained(s: PairState, events: seq<PairEvent>) {
    && TokensIssued(s, events)
    && (forall r :: r in s.requests && s.requests[r].LookedUp? ==> KnewTheCode(events, r, s.requests[r].token))
    && (forall r :: r in s.requests && s.requests[r].Claimed? ==> ClaimedAfter(events, r, s.requests[r].token))
    && (forall t :: t in s.devices ==> RegisteredAfter(events, t))
  }

  lemma IssueExplained(s: PairState, events: seq<PairEvent>, e: PairEvent)
    requires TokensIssued(s, events)
    ensures TokensIssued(PairStep(s, e), events + [e])
  {
    var s', more := PairStep(s, e), events + [e];
    forall t | t in s'.tokens
      ensures exists i :: IssuedAt(more, i, t, s'.tokens[t].hash, s'.tokens[t].expiresAt)
    {
      if t in s.tokens {
        var i :| IssuedAt(events, i, t, s.tokens[t].hash, s.tokens[t].expiresAt);
        IssuedGrows(events, e, i, t, s.tokens[t].hash, s.tokens[t].expiresAt);
      } else {
        assert IssuedAt(more, |events|, t, s'.tokens[t].hash, s'.tokens[t].expiresAt);
      }
    }
  }

  lemma LookUpExplained(s: PairState, events: seq<PairEvent>, e: PairEvent)
    requires TokensIssued(s, events) && e.LookUp? && e.request !in s.requests
    requires PairStep(s, e).requests[e.request].LookedUp?
    ensures KnewTheCode(events + [e], e.request, PairStep(s, e).requests[e.request].token)
  {
    var t := PairStep(s, e).requests[e.request].token;
    var i :| IssuedAt(events, i, t, s.tokens[t].hash, s.tokens[t].expiresAt);
    assert IssuedAt(events, i, t, e.hash, e.now);
    IssuedGrows(events, e, i, t, e.hash, e.now);
    assert (events + [e])[|events|] == e;
  }

  lemma LookedUpExplained(s: PairState, events: seq<PairEvent>, e: PairEvent, r: nat)
    requires Explained(s, events) && r in PairStep(s, e).requests && PairStep(s, e).requests[r].LookedUp?
    ensures KnewTheCode(events + [e], r, PairStep(s, e).requests[r].token)
  {
    if r in s.requests {
      assert s.requests[r] == PairStep(s, e).requests[r];
      KnewGrows(events, e, r, s.requests[r].token);
    } else {
      LookUpExplained(s, events, e);
    }
  }

  lemma ClaimedExplained(s: PairState, events: seq<PairEvent>, e: PairEvent, r: nat)
    requires Explained(s, events) && r in PairStep(s, e).requests && PairStep(s, e).requests[r].Claimed?
    ensures ClaimedAfter(events + [e], r, PairStep(s, e).requests[r].token)
  {
    var more := events + [e];
    assert r in s.requests && s.requests[r].token == PairStep(s, e).requests[r].token;
    if s.requests[r].Claimed? {
      ClaimedGrows(events, e, r, s.requests[r].token);
    } else {
      assert more[..|events|] == events && more[|events|] == e;
    }
  }

  lemma DevicesExplained(s: PairState, events: seq<PairEvent>, e: PairEvent, t: nat)
    requires Explained(s, events) && t in PairStep(s, e).devices
    ensures RegisteredAfter(events + [e], t)
  {
    var more := events + [e];
    if t in s.devices {
      RegisteredGrows(events, e, t);
    } else {
      assert more[..|events|] == events && more[|events|] == e;
    }
  }

  lemma StepExplained(s: PairState, events: seq<PairEvent>, e: PairEvent)
    requires Explained(s, events)
    ensures Explained(PairStep(s, e), events + [e])
  {
    var s', more := PairStep(s, e), events + [e];
    IssueExplained(s, events, e);
    forall r | r in s'.requests && s'.requests[r].LookedUp?
      ensures KnewTheCode(more, r, s'.requests[r].token)
    {
      LookedUpExplained(s, events, e, r);
    }
    forall r | r in s'.requests && s'.requests[r].Claimed?
      ensures ClaimedAfter(more, r, s'.requests[r].token)
    {
      ClaimedExplained(s, events, e, r);
    }
    forall t | t in s'.devices
      ensures RegisteredAfter(more, t)
    {
      DevicesExplained(s, events, e, t);
    }
  }

  lemma {:induction false} RunExplained(events: seq<PairEvent>)
    ensures Explained(PairRun(NOTHING_PAIRED, events), events)
  {
    if events != [] {
      RunExplained(events[..|events| - 1]);
      StepExplained(PairRun(NOTHING_PAIRED, events[..|events| - 1]), events[..|events| - 1], events[|events| - 1]);
      assert events[..|events| - 1] + [events[|events| - 1]] == events;
    }
  }

  /**
   * However requests interleave, a device is paired only by a request that named the hash its token
   * was issued with, before the token expired, and then claimed and registered.
   */
  lemma {:induction false} OnlyTheCodePairs(events: seq<PairEvent>, t: nat)
    requires t in PairRun(NOTHING_PAIRED, events).devices
    ensures exists l :: 0 <= l < |events| && events[l].Register? && ClaimedAfter(events[..l], events[l].request, t)
  {
    RunExplained(events);
  }

  /**
   * An undisturbed request pairs its device if and only if the code is right, unused and not expired;
   * otherwise it ends at the look-up and leaves tokens and devices as they were.
   */
  lemma {:induction false} UndisturbedPairing(s: PairState, r: nat, hash: string, t: nat, now: int, at: int)
    requires r !in s.requests
    ensures var s' := PairRun(s, [LookUp(r, hash, t, now), Claim(r, at), Register(r)]);
      if t in s.tokens && s.tokens[t].hash == hash && s.tokens[t].usedAt == None && now <= s.tokens[t].expiresAt
      then s'.devices == s.devices + [t] && s'.tokens == s.tokens[t := s.tokens[t].(usedAt := Some(at))]
      else s' == s.(requests := s.requests[r := Finished])
  {
    var a, b, c := LookUp(r, hash, t, now), Claim(r, at), Register(r);
    assert [a, b, c][..2] == [a, b] && [a, b][..1] == [a] && [a][..0] == [];
    assert PairRun(s, [a]) == PairStep(PairRun(s, []), a);
    assert PairRun(s, [a, b]) == PairStep(PairRun(s, [a]), b);
  }

  /** A look-up goes on if and only if the code is right, unused and not expired. */
  lemma LookUpGoesOnIff(s: PairState, r: nat, hash: string, t: nat, now: int)
    requires r !in s.requests
    ensures var goesOn := t in s.tokens && s.tokens[t].hash == hash && s.tokens[t].usedAt == None && now <= s.tokens[t].expiresAt;
      PairStep(s, LookUp(r, hash, t, now)) == s.(requests := s.requests[r := if goesOn then LookedUp(t) else Finished])
  {}

  /** A request that gave up after its look-up or its claim pairs nothing in any continuation; a claimed token stays spent. */
  lemma {:induction false} GivenUpIsOver(s: PairState, r: nat, more: seq<PairEvent>)
    requires r in s.requests
    ensures var s' := PairStep(s, GiveUp(r));
      && s'.tokens == s.tokens && s'.devices == s.devices
      && r in PairRun(s', more).requests && PairRun(s', more).requests[r] == Finished
  {
    if more != [] {
      GivenUpIsOver(s, r, more[..|more| - 1]);
    }
  }
}
