/**
 * Exactly on which inputs the DER parser of src/lib/asn1.ts, as DerAsWritten runs it, returns: a
 * decision that follows the offsets of each child loop until one is seen twice.
 */
module DerTermination {
  import opened Common
  import opened Der
  import opened DerAsWritten

  datatype Fate = Never | Fails | Ends

  const NONE: set<int> := {}

  /** Offsets at which the loop may stand and that it has not visited. */
  function Unseen(value: seq<Byte>, seen: set<int>): set<int> {
    set i: int | -1 <= i < |value| && i !in seen
  }

  function NodeFate(bytes: seq<Byte>, offset: int): Fate
    decreases |bytes|, NONE, 0
  {
    match HeaderAt(bytes, offset)
    case Err(_) => Fails
    case Ok(h) =>
      if h.length.Some? && h.contentAt + h.length.value > |bytes| then Fails
      else if !IsConstructed(Bits(h.first)) then Ends
      else
        ValueIsShorter(bytes, offset);
        LoopFate(Subarray(bytes, h.contentAt, EndOf(h)), Some(0), {})
  }

  /** Where the loop goes after the child at `offset`. */
  function After(value: seq<Byte>, offset: int): Option<int> {
    var h := HeaderAt(value, offset);
    if h.Ok? then EndOf(h.value) else None
  }

  /** Before octet -1 a child has no length, and the loop ends. */
  function LoopFate(value: seq<Byte>, offset: Option<int>, seen: set<int>): Fate
    decreases |value|, Unseen(value, seen), 1
  {
    if offset.None? || offset.value >= |value| || offset.value < -1 then Ends
    else if offset.value in seen then Never
    else
      assert offset.value in Unseen(value, seen);
      match NodeFate(value, offset.value)
      case Never => Never
      case Fails => Fails
      case Ends => LoopFate(value, After(value, offset.value), seen + {offset.value})
  }

  lemma ValueIsShorter(bytes: seq<Byte>, offset: int)
    requires HeaderAt(bytes, offset).Ok? && IsConstructed(Bits(HeaderAt(bytes, offset).value.first))
    ensures var h := HeaderAt(bytes, offset).value; |Subarray(bytes, h.contentAt, EndOf(h))| < |bytes|
  {}

  // ---------------------------------------------------------------- fuel

  lemma {:induction false} NodeFuel(bytes: seq<Byte>, offset: int, fuel: nat, more: nat)
    requires NodeAt(bytes, offset, fuel).Done? && fuel <= more
    ensures NodeAt(bytes, offset, more) == NodeAt(bytes, offset, fuel)
    decreases more
  {
    if fuel < more {
      NodeFuel(bytes, offset, fuel, more - 1);
      MoreFuel(bytes, offset, more - 1);
    }
  }

  lemma {:induction false} LoopFuel(value: seq<Byte>, offset: Option<int>, kids: seq<Written>, fuel: nat, more: nat)
    requires ChildLoop(value, offset, kids, fuel).Done? && fuel <= more
    ensures ChildLoop(value, offset, kids, more) == ChildLoop(value, offset, kids, fuel)
    decreases more
  {
    if fuel < more {
      LoopFuel(value, offset, kids, fuel, more - 1);
      MoreLoopFuel(value, offset, kids, more - 1);
    }
  }

  // ---------------------------------------------------------------- a fate other than Never is reached

  ghost predicate NodeMeets(answer: Answer<(Written, Option<int>)>, fate: Fate, next: Option<int>) {
    answer.Done? && (answer.outcome.Ok? <==> fate == Ends) && (answer.outcome.Ok? ==> answer.outcome.value.1 == next)
  }

  ghost predicate LoopMeets(answer: Answer<seq<Written>>, fate: Fate) {
    answer.Done? && (answer.outcome.Ok? <==> fate == Ends)
  }

  lemma {:induction false} NodeReaches(bytes: seq<Byte>, offset: int) returns (fuel: nat)
    requires NodeFate(bytes, offset) != Never
    ensures NodeMeets(NodeAt(bytes, offset, fuel), NodeFate(bytes, offset), After(bytes, offset))
    decreases |bytes|, NONE, 0
  {
    fuel := 0;
    var header := HeaderAt(bytes, offset);
    if header.Ok? && IsConstructed(Bits(header.value.first)) && !(header.value.length.Some? && header.value.contentAt + header.value.length.value > |bytes|) {
      ValueIsShorter(bytes, offset);
      var h := header.value;
      fuel := LoopReaches(Subarray(bytes, h.contentAt, EndOf(h)), Some(0), {}, []);
      ConstructedMeets(bytes, offset, h, fuel);
      fuel := fuel + 1;
    }
  }

  lemma {:induction false} ConstructedMeets(bytes: seq<Byte>, offset: int, h: WrittenHeader, fuel: nat)
    requires HeaderAt(bytes, offset) == Ok(h) && IsConstructed(Bits(h.first))
    requires !(h.length.Some? && h.contentAt + h.length.value > |bytes|)
    requires var value := Subarray(bytes, h.contentAt, EndOf(h)); LoopMeets(ChildLoop(value, Some(0), [], fuel), LoopFate(value, Some(0), {}))
    ensures NodeMeets(NodeAt(bytes, offset, fuel + 1), NodeFate(bytes, offset), After(bytes, offset))
  {}

  lemma {:induction false} LoopReaches(value: seq<Byte>, offset: Option<int>, seen: set<int>, kids: seq<Written>) returns (fuel: nat)
    requires LoopFate(value, offset, seen) != Never
    ensures LoopMeets(ChildLoop(value, offset, kids, fuel), LoopFate(value, offset, seen))
    decreases |value|, Unseen(value, seen), 1
  {
    if offset.None? || offset.value >= |value| {
      fuel := 0;
    } else if offset.value < -1 {
      BeforeTheStart(value, offset.value, kids);
      fuel := 1;
    } else {
      var o := offset.value;
      assert o in Unseen(value, seen) && o !in Unseen(value, seen + {o});
      FateOfStep(value, o, seen);
      var first := NodeReaches(value, o);
      if NodeFate(value, o) == Ends {
        var child := NodeAt(value, o, first).outcome.value.0;
        var rest := LoopReaches(value, After(value, o), seen + {o}, kids + [child]);
        fuel := (if first <= rest then rest else first) + 1;
        ChildThenRest(value, o, kids, child, first, rest, fuel);
      } else {
        fuel := first + 1;
        FailedPass(value, o, kids, fuel, NodeAt(value, o, first).outcome.error);
      }
    }
  }

  lemma {:induction false} BeforeTheStart(value: seq<Byte>, offset: int, kids: seq<Written>)
    requires offset < -1
    ensures ChildLoop(value, Some(offset), kids, 1).Done? && ChildLoop(value, Some(offset), kids, 1).outcome.Ok?
  {
    var child := NodeOfHeader(value, offset, WrittenHeader(None, 0, None, offset + 2), []);
    assert NodeAt(value, offset, 0) == Done(Ok((child, None)));
    Pass(value, offset, kids, 1, child, None);
  }

  lemma {:induction false} FateOfStep(value: seq<Byte>, offset: int, seen: set<int>)
    requires -1 <= offset < |value| && offset !in seen
    ensures LoopFate(value, Some(offset), seen) ==
      if NodeFate(value, offset) == Ends then LoopFate(value, After(value, offset), seen + {offset}) else NodeFate(value, offset)
  {}

  lemma {:induction false} ChildThenRest(value: seq<Byte>, offset: int, kids: seq<Written>, child: Written, first: nat, rest: nat, fuel: nat)
    requires offset < |value| && first < fuel && rest < fuel
    requires NodeAt(value, offset, first) == Done(Ok((child, After(value, offset))))
    requires ChildLoop(value, After(value, offset), kids + [child], rest).Done?
    ensures ChildLoop(value, Some(offset), kids, fuel) == ChildLoop(value, After(value, offset), kids + [child], rest)
  {
    NodeFuel(value, offset, first, fuel - 1);
    LoopFuel(value, After(value, offset), kids + [child], rest, fuel - 1);
    Pass(value, offset, kids, fuel, child, After(value, offset));
  }

  // ---------------------------------------------------------------- Never is never left

  /** From `from` the loop reaches `to` in n passes. */
  ghost predicate Leads(value: seq<Byte>, from: int, to: int, n: nat)
    decreases n
  {
    if n == 0 then from == to
    else -1 <= from < |value| && NodeFate(value, from) == Ends && After(value, from).Some? && Leads(value, After(value, from).value, to, n - 1)
  }

  lemma {:induction false} LeadsOn(value: seq<Byte>, from: int, to: int, n: nat)
    requires Leads(value, from, to, n)
    requires -1 <= to < |value| && NodeFate(value, to) == Ends && After(value, to).Some?
    ensures Leads(value, from, After(value, to).value, n + 1)
    decreases n
  {
    if n == 0 {
      assert Leads(value, After(value, to).value, After(value, to).value, 0);
    } else {
      LeadsOn(value, After(value, from).value, to, n - 1);
    }
  }

  /** A child that ends answers where the loop goes next. */
  lemma {:induction false} EndsAnswers(value: seq<Byte>, offset: int, fuel: nat)
    requires NodeFate(value, offset) == Ends && NodeAt(value, offset, fuel).Done?
    ensures var outcome := NodeAt(value, offset, fuel).outcome; outcome.Ok? && outcome.value.1 == After(value, offset)
  {
    var enough := NodeReaches(value, offset);
    SameAnswer(value, offset, fuel, enough);
  }

  /** So a pass over it takes the loop there, if the fuel lasts. */
  lemma {:induction false} StepOn(value: seq<Byte>, offset: int, kids: seq<Written>, fuel: nat) returns (child: Written)
    requires offset < |value| && NodeFate(value, offset) == Ends && fuel > 0
    ensures ChildLoop(value, Some(offset), kids, fuel).Running?
         || ChildLoop(value, Some(offset), kids, fuel) == ChildLoop(value, After(value, offset), kids + [child], fuel - 1)
  {
    var answer := NodeAt(value, offset, fuel - 1);
    if answer.Done? {
      EndsAnswers(value, offset, fuel - 1);
      child := answer.outcome.value.0;
      Pass(value, offset, kids, fuel, child, After(value, offset));
    } else {
      child := NodeOfHeader(value, offset, WrittenHeader(None, 0, None, 0), []);
      NoPass(value, offset, kids, fuel);
    }
  }

  lemma {:induction false} NoPass(value: seq<Byte>, offset: int, kids: seq<Written>, fuel: nat)
    requires offset < |value| && fuel > 0 && NodeAt(value, offset, fuel - 1).Running?
    ensures ChildLoop(value, Some(offset), kids, fuel).Running?
  {}

  lemma {:induction false} NoFuel(value: seq<Byte>, offset: int, kids: seq<Written>)
    requires offset < |value|
    ensures ChildLoop(value, Some(offset), kids, 0).Running?
  {}

  /** With this much fuel the loop does not get away from `offset`, whatever it has pushed. */
  ghost predicate StuckAt(value: seq<Byte>, offset: int, fuel: nat) {
    forall kids :: ChildLoop(value, Some(offset), kids, fuel).Running?
  }

  lemma {:induction false} PathRuns(value: seq<Byte>, from: int, to: int, n: nat, kids: seq<Written>, fuel: nat)
    requires Leads(value, from, to, n)
    requires n <= fuel ==> StuckAt(value, to, fuel - n)
    ensures ChildLoop(value, Some(from), kids, fuel).Running?
    decreases n
  {
    if n > 0 {
      if fuel == 0 {
        NoFuel(value, from, kids);
      } else {
        var child := StepOn(value, from, kids, fuel);
        PathRuns(value, After(value, from).value, to, n - 1, kids + [child], fuel - 1);
      }
    }
  }

  lemma {:induction false} NeverIsConstructed(bytes: seq<Byte>, offset: int)
    requires NodeFate(bytes, offset) == Never
    ensures HeaderAt(bytes, offset).Ok?
    ensures var h := HeaderAt(bytes, offset).value;
      && IsConstructed(Bits(h.first)) && !(h.length.Some? && h.contentAt + h.length.value > |bytes|)
      && LoopFate(Subarray(bytes, h.contentAt, EndOf(h)), Some(0), {}) == Never
  {}

  lemma {:induction false} RunningInside(bytes: seq<Byte>, offset: int, h: WrittenHeader, fuel: nat)
    requires HeaderAt(bytes, offset) == Ok(h) && IsConstructed(Bits(h.first))
    requires !(h.length.Some? && h.contentAt + h.length.value > |bytes|)
    requires fuel > 0 ==> ChildLoop(Subarray(bytes, h.contentAt, EndOf(h)), Some(0), [], fuel - 1).Running?
    ensures NodeAt(bytes, offset, fuel).Running?
  {}

  lemma {:induction false} NodeKeepsRunning(bytes: seq<Byte>, offset: int, fuel: nat)
    requires NodeFate(bytes, offset) == Never
    ensures NodeAt(bytes, offset, fuel).Running?
    decreases fuel, 1
  {
    NeverIsConstructed(bytes, offset);
    var h := HeaderAt(bytes, offset).value;
    InsideKeepsRunning(Subarray(bytes, h.contentAt, EndOf(h)), fuel);
    RunningInside(bytes, offset, h, fuel);
  }

  lemma {:induction false} InsideKeepsRunning(value: seq<Byte>, fuel: nat)
    requires LoopFate(value, Some(0), {}) == Never
    ensures fuel > 0 ==> ChildLoop(value, Some(0), [], fuel - 1).Running?
    decreases fuel, 0
  {
    if fuel > 0 {
      LoopKeepsRunning(value, 0, {}, [], fuel - 1);
    }
  }

  /** Every offset seen so far leads to the one at hand. */
  ghost predicate Trail(value: seq<Byte>, seen: set<int>, offset: int) {
    forall s :: s in seen ==> exists n :: n > 0 && Leads(value, s, offset, n)
  }

  lemma {:induction false} TrailGrows(value: seq<Byte>, seen: set<int>, offset: int)
    requires Trail(value, seen, offset)
    requires -1 <= offset < |value| && NodeFate(value, offset) == Ends && After(value, offset).Some?
    ensures Trail(value, seen + {offset}, After(value, offset).value)
  {
    var next := After(value, offset).value;
    forall s | s in seen + {offset}
      ensures exists n :: n > 0 && Leads(value, s, next, n)
    {
      if s in seen {
        var n :| n > 0 && Leads(value, s, offset, n);
        LeadsOn(value, s, offset, n);
      } else {
        LeadsOn(value, offset, offset, 0);
      }
    }
  }

  lemma {:induction false} LoopKeepsRunning(value: seq<Byte>, offset: int, seen: set<int>, kids: seq<Written>, fuel: nat)
    requires LoopFate(value, Some(offset), seen) == Never && Trail(value, seen, offset)
    ensures ChildLoop(value, Some(offset), kids, fuel).Running?
    decreases fuel, 1
  {
    if offset in seen {
      var n :| n > 0 && Leads(value, offset, offset, n);
      if n <= fuel {
        AllKeepRunning(value, offset, seen, fuel - n);
      }
      PathRuns(value, offset, offset, n, kids, fuel);
    } else if fuel == 0 {
      NoFuel(value, offset, kids);
    } else {
      FateOfStep(value, offset, seen);
      if NodeFate(value, offset) == Never {
        NodeKeepsRunning(value, offset, fuel - 1);
        NoPass(value, offset, kids, fuel);
      } else {
        var child := StepOn(value, offset, kids, fuel);
        KeepsRunningAfter(value, offset, seen, kids + [child], fuel);
      }
    }
  }

  lemma {:induction false} AllKeepRunning(value: seq<Byte>, offset: int, seen: set<int>, fuel: nat)
    requires LoopFate(value, Some(offset), seen) == Never && Trail(value, seen, offset)
    ensures StuckAt(value, offset, fuel)
    decreases fuel, 2
  {
    forall kids
      ensures ChildLoop(value, Some(offset), kids, fuel).Running?
    {
      LoopKeepsRunning(value, offset, seen, kids, fuel);
    }
  }

  lemma {:induction false} KeepsRunningAfter(value: seq<Byte>, offset: int, seen: set<int>, kids: seq<Written>, fuel: nat)
    requires -1 <= offset < |value| && NodeFate(value, offset) == Ends && fuel > 0
    requires LoopFate(value, After(value, offset), seen + {offset}) == Never && Trail(value, seen, offset)
    ensures ChildLoop(value, After(value, offset), kids, fuel - 1).Running?
    decreases fuel, 0
  {
    TrailGrows(value, seen, offset);
    LoopKeepsRunning(value, After(value, offset).value, seen + {offset}, kids, fuel - 1);
  }

  // ---------------------------------------------------------------- the exact condition

  ghost predicate OutOfFuel(bytes: seq<Byte>, offset: int, fuel: nat) {
    NodeAt(bytes, offset, fuel).Running?
  }

  ghost predicate Succeeds(bytes: seq<Byte>, offset: int, fuel: nat) {
    NodeAt(bytes, offset, fuel).Done? && NodeAt(bytes, offset, fuel).outcome.Ok?
  }

  /** The parser runs for ever exactly on the inputs of fate Never, and returns a node exactly on those of fate Ends. */
  lemma {:induction false} ReturnsIff(bytes: seq<Byte>, offset: int)
    ensures (forall fuel: nat :: OutOfFuel(bytes, offset, fuel)) <==> NodeFate(bytes, offset) == Never
    ensures (exists fuel: nat :: Succeeds(bytes, offset, fuel)) <==> NodeFate(bytes, offset) == Ends
  {
    if NodeFate(bytes, offset) == Never {
      forall fuel: nat
        ensures OutOfFuel(bytes, offset, fuel)
      {
        NodeKeepsRunning(bytes, offset, fuel);
      }
      assert forall fuel: nat :: Succeeds(bytes, offset, fuel) ==> !OutOfFuel(bytes, offset, fuel);
    } else {
      var enough := NodeReaches(bytes, offset);
      assert !OutOfFuel(bytes, offset, enough) && (NodeFate(bytes, offset) == Ends ==> Succeeds(bytes, offset, enough));
      forall fuel: nat | Succeeds(bytes, offset, fuel)
        ensures NodeFate(bytes, offset) == Ends
      {
        SameAnswer(bytes, offset, fuel, enough);
      }
    }
  }

  lemma {:induction false} SameAnswer(bytes: seq<Byte>, offset: int, fuel: nat, enough: nat)
    requires NodeAt(bytes, offset, fuel).Done? && NodeAt(bytes, offset, enough).Done?
    ensures NodeAt(bytes, offset, fuel) == NodeAt(bytes, offset, enough)
  {
    if fuel <= enough {
      NodeFuel(bytes, offset, fuel, enough);
    } else {
      NodeFuel(bytes, offset, enough, fuel);
    }
  }

  /** Without a wrapped length the parser always returns. */
  lemma {:induction false} NeverOnlyIfWrapped(bytes: seq<Byte>, offset: nat)
    requires NodeFate(bytes, offset) == Never
    ensures ParseNode(bytes, offset) == Err(WrappedLength)
  {
    NodeKeepsRunning(bytes, offset, |bytes|);
    if ParseNode(bytes, offset) != Err(WrappedLength) {
      AsWrittenIsParse(bytes, offset, |bytes|);
    }
  }

  /** Two children that lead to each other, 05 00 04 84 ff ff ff f8: neither stands still, and the loop never ends. */
  lemma {:induction false} TwoChildrenInACircle(value: seq<Byte>, kids: seq<Written>, fuel: nat)
    requires |value| == 8 && value[0] == 0x05 && value[1] == 0 && value[2] == 0x04 && value[3] == 0x84
    requires FourOctets(value, 4) == 0xffff_fff8
    ensures !StandsStill(value, 0) && !StandsStill(value, 2) && ChildLoop(value, Some(0), kids, fuel).Running?
  {
    CircleHeaders(value);
    CircleFate(value);
    LoopKeepsRunning(value, 0, {}, kids, fuel);
  }

  lemma CircleHeaders(value: seq<Byte>)
    requires |value| == 8 && value[0] == 0x05 && value[1] == 0 && value[2] == 0x04 && value[3] == 0x84
    requires FourOctets(value, 4) == 0xffff_fff8
    ensures ReadHeader(value, 0) == Ok(Header(5, 0, 2)) && ReadHeader(value, 2) == Ok(Header(4, -8, 8))
  {
    FourOctetLength(value, 4);
    assert ReadTag(value, 0) == (5, 1) && ReadTag(value, 2) == (4, 3);
    assert ReadLength(value, 1) == Ok((0, 2)) && ReadLength(value, 3) == Ok((-8, 8));
  }

  lemma {:induction false} CircleFate(value: seq<Byte>)
    requires |value| == 8 && value[0] == 0x05 && value[2] == 0x04
    requires ReadHeader(value, 0) == Ok(Header(5, 0, 2)) && ReadHeader(value, 2) == Ok(Header(4, -8, 8))
    ensures LoopFate(value, Some(0), {}) == Never
  {
    assert After(value, 0) == Some(2) && After(value, 2) == Some(0);
    assert NodeFate(value, 0) == Ends && NodeFate(value, 2) == Ends;
    assert LoopFate(value, Some(0), {} + {0} + {2}) == Never;
    assert LoopFate(value, Some(2), {} + {0}) == Never;
  }
}
