/**
 * Exact occurrence ranges and the greedy matching of sequence children (particle_occurrence.go,
 * validation_precision_decimal_sequence.go).
 */
module SequenceMatcher {
  import opened Wrappers
  import opened SchemaGroups

  // ----- occurrence ranges

  datatype Occurrence = Finite(value: nat) | Unbounded

  /** Finite bounds in order, all below the unbounded one. */
  function Compare(left: Occurrence, right: Occurrence): int {
    match (left, right)
    case (Finite(x), Finite(y)) => if x < y then -1 else if x > y then 1 else 0
    case (Unbounded, Unbounded) => 0
    case (Unbounded, Finite(_)) => 1
    case (Finite(_), Unbounded) => -1
  }

  datatype OccurrenceRange = OccurrenceRange(minimum: Occurrence, maximum: Occurrence)

  datatype RangeError = MinimumUnbounded | MinimumExceedsMaximum

  function NewOccurrenceRange(minimum: Occurrence, maximum: Occurrence): (result: Result<OccurrenceRange, RangeError>)
    ensures result.Ok? <==> exists n: nat :: Allows(OccurrenceRange(minimum, maximum), n)
    ensures result.Ok? ==> result.value == OccurrenceRange(minimum, maximum)
  {
    if minimum.Unbounded? then Err(MinimumUnbounded)
    else if !maximum.Unbounded? && Compare(minimum, maximum) > 0 then Err(MinimumExceedsMaximum)
    else
      assert Allows(OccurrenceRange(minimum, maximum), minimum.value);
      Ok(OccurrenceRange(minimum, maximum))
  }

  /** `n` occurrences lie within the range. */
  predicate Allows(range: OccurrenceRange, n: nat) {
    && range.minimum.Finite? && range.minimum.value <= n
    && (range.maximum.Finite? ==> n <= range.maximum.value)
  }

  predicate ValidRange(range: OccurrenceRange) {
    range.minimum.Finite? && Allows(range, range.minimum.value)
  }

  datatype Planned = Planned(name: QName, occurrences: OccurrenceRange)

  predicate ValidProgram(program: seq<Planned>) {
    forall i :: 0 <= i < |program| ==> ValidRange(program[i].occurrences)
  }

  function Min(p: Planned): nat
    requires ValidRange(p.occurrences)
  {
    p.occurrences.minimum.value
  }

  /** The particle may occur at least `n` times. */
  predicate MayOccur(p: Planned, n: nat) {
    p.occurrences.maximum.Finite? ==> n <= p.occurrences.maximum.value
  }

  // ----- what a match is

  function Repeat(name: QName, n: nat): seq<QName> {
    seq(n, i => name)
  }

  /** The children that occur when each particle occurs its count. */
  function Spell(program: seq<Planned>, counts: seq<nat>): seq<QName>
    requires |counts| == |program|
  {
    if program == [] then [] else Repeat(program[0].name, counts[0]) + Spell(program[1..], counts[1..])
  }

  /** Counts within every range that spell exactly the children. */
  ghost predicate Partition(children: seq<QName>, program: seq<Planned>, counts: seq<nat>) {
    && |counts| == |program|
    && (forall i :: 0 <= i < |program| ==> Allows(program[i].occurrences, counts[i]))
    && Spell(program, counts) == children
  }

  // ----- the greedy match

  datatype MatchError = Missing(name: QName) | Unexpected(name: QName)

  /** How many leading children the particle takes: the run of its name, up to its maximum. */
  function Take(children: seq<QName>, p: Planned): (n: nat)
    ensures n <= |children| && children[..n] == Repeat(p.name, n) && MayOccur(p, n)
    ensures n < |children| && children[n] == p.name ==> !MayOccur(p, n + 1)
  {
    TakeFrom(children, p, 0)
  }

  function TakeFrom(children: seq<QName>, p: Planned, taken: nat): (n: nat)
    requires taken <= |children| && children[..taken] == Repeat(p.name, taken) && MayOccur(p, taken)
    ensures n <= |children| && children[..n] == Repeat(p.name, n) && MayOccur(p, n)
    ensures n < |children| && children[n] == p.name ==> !MayOccur(p, n + 1)
    decreases |children| - taken
  {
    if taken < |children| && children[taken] == p.name && MayOccur(p, taken + 1)
    then
      assert children[..taken + 1] == children[..taken] + [p.name] == Repeat(p.name, taken + 1);
      TakeFrom(children, p, taken + 1)
    else taken
  }

  function Greedy(children: seq<QName>, program: seq<Planned>): Result<seq<nat>, MatchError>
    requires ValidProgram(program)
    decreases |program|
  {
    if program == [] then if children == [] then Ok([]) else Err(Unexpected(children[0]))
    else
      var count := Take(children, program[0]);
      if count < Min(program[0]) then Err(Missing(program[0].name))
      else
        var rest := Greedy(children[count..], program[1..]);
        if rest.Err? then rest else Ok([count] + rest.value)
  }

  /** The particle index of each child when each particle occurs its count. */
  function Assignment(counts: seq<nat>, first: nat): seq<nat> {
    if counts == [] then [] else seq(counts[0], i => first) + Assignment(counts[1..], first + 1)
  }

  lemma {:induction false} TakeFromUnique(children: seq<QName>, p: Planned, taken: nat, n: nat)
    requires taken <= n <= |children| && children[..n] == Repeat(p.name, n) && MayOccur(p, n)
    requires n == |children| || children[n] != p.name || !MayOccur(p, n + 1)
    requires children[..taken] == Repeat(p.name, taken) && MayOccur(p, taken)
    ensures TakeFrom(children, p, taken) == n
    decreases n - taken
  {
    if taken < n {
      assert children[taken] == children[..n][taken] == p.name;
      assert children[..taken + 1] == children[..taken] + [p.name] == Repeat(p.name, taken + 1);
      TakeFromUnique(children, p, taken + 1, n);
    }
  }

  /** The longest run within the maximum is the only one that stops for a reason. */
  lemma TakeUnique(children: seq<QName>, p: Planned, n: nat)
    requires n <= |children| && children[..n] == Repeat(p.name, n) && MayOccur(p, n)
    requires n == |children| || children[n] != p.name || !MayOccur(p, n + 1)
    ensures Take(children, p) == n
  {
    assert children[..0] == Repeat(p.name, 0);
    TakeFromUnique(children, p, 0, n);
  }

  /** The assignment that results when the remaining particles match as `rest` says. */
  function Assigned(matched: seq<nat>, rest: Result<seq<nat>, MatchError>, p: nat): Result<seq<nat>, MatchError> {
    match rest
    case Ok(counts) => Ok(matched + Assignment(counts, p))
    case Err(error) => Err(error)
  }

  /** One particle's turn: takes the run of its name, up to its maximum. */
  method MatchParticle(children: seq<QName>, planned: Planned, start: nat, p: nat, before: seq<nat>)
    returns (index: nat, count: nat, matched: seq<nat>)
    requires start <= |children|
    ensures count == Take(children[start..], planned) && index == start + count
    ensures matched == before + seq(count, i => p)
  {
    hide Take, TakeFrom;
    matched, index, count := before, start, 0;
    ghost var rest := children[start..];
    while index < |children| && children[index] == planned.name
      invariant count <= |rest| && index == start + count
      invariant rest[..count] == Repeat(planned.name, count) && MayOccur(planned, count)
      invariant matched == before + seq(count, i => p)
    {
      if planned.occurrences.maximum.Finite? && count >= planned.occurrences.maximum.value {
        break;
      }
      matched := matched + [p];
      index := index + 1;
      count := count + 1;
      assert rest[..count] == rest[..count - 1] + [planned.name];
    }
    TakeUnique(rest, planned, count);
  }

  /** Matches the children in one pass, recording the particle of each child. */
  method MatchSequence(children: seq<QName>, program: seq<Planned>) returns (result: Result<seq<nat>, MatchError>)
    requires ValidProgram(program)
    ensures result == Assigned([], Greedy(children, program), 0)
  {
    hide Take, Greedy, Assigned;
    var matched: seq<nat> := [];
    var index := 0;
    assert children[0..] == children && program[0..] == program;
    for p := 0 to |program|
      invariant 0 <= index <= |children|
      invariant Assigned([], Greedy(children, program), 0) ==
        Assigned(matched, Greedy(children[index..], program[p..]), p)
    {
      var planned := program[p];
      assert program[p..][0] == planned && program[p..][1..] == program[p + 1..];
      GreedyStep(children[index..], program[p..], matched, p);
      ghost var start := index;
      var count;
      index, count, matched := MatchParticle(children, planned, index, p, matched);
      assert children[start..][count..] == children[index..];
      if count < planned.occurrences.minimum.value {
        return Err(Missing(planned.name));
      }
    }
    GreedyEnd(children[index..], program[|program|..], matched, |program|);
    if index < |children| {
      return Err(Unexpected(children[index]));
    }
    return Ok(matched);
  }

  lemma GreedyStep(children: seq<QName>, program: seq<Planned>, before: seq<nat>, p: nat)
    requires ValidProgram(program) && program != []
    ensures var count := Take(children, program[0]);
      Assigned(before, Greedy(children, program), p) ==
      if count < Min(program[0]) then Err(Missing(program[0].name))
      else Assigned(before + seq(count, i => p), Greedy(children[count..], program[1..]), p + 1)
  {
    hide Take, Assignment, Repeat;
    var count := Take(children, program[0]);
    var tail := Greedy(children[count..], program[1..]);
    if count >= Min(program[0]) && tail.Ok? {
      AssignmentOfFirst(count, tail.value, p);
      AppendTwice(before, seq(count, i => p), Assignment(tail.value, p + 1));
    }
  }

  lemma AssignmentOfFirst(count: nat, rest: seq<nat>, p: nat)
    ensures Assignment([count] + rest, p) == seq(count, i => p) + Assignment(rest, p + 1)
  {
    assert ([count] + rest)[1..] == rest;
  }

  lemma AppendTwice(a: seq<nat>, b: seq<nat>, c: seq<nat>)
    ensures a + (b + c) == a + b + c
  {
  }

  lemma GreedyEnd(children: seq<QName>, program: seq<Planned>, matched: seq<nat>, p: nat)
    requires program == []
    ensures Assigned(matched, Greedy(children, program), p) ==
      if children == [] then Ok(matched) else Err(Unexpected(children[0]))
  {
    assert matched + [] == matched;
  }

  // ----- soundness

  lemma GreedyCounts(children: seq<QName>, program: seq<Planned>)
    requires ValidProgram(program) && program != [] && Greedy(children, program).Ok?
    ensures var count := Take(children, program[0]);
      && count >= Min(program[0])
      && Greedy(children[count..], program[1..]).Ok?
      && Greedy(children, program).value == [count] + Greedy(children[count..], program[1..]).value
  {
  }

  /** An accepted match partitions the children within every exact range. */
  lemma {:induction false} GreedyIsSound(children: seq<QName>, program: seq<Planned>)
    requires ValidProgram(program) && Greedy(children, program).Ok?
    ensures Partition(children, program, Greedy(children, program).value)
    decreases |program|
  {
    if program != [] {
      GreedyCounts(children, program);
      var count := Take(children, program[0]);
      GreedyIsSound(children[count..], program[1..]);
      hide Greedy, Take, Repeat;
      var counts := Greedy(children, program).value;
      var rest := counts[1..];
      assert Allows(program[0].occurrences, count);
      forall i | 0 < i < |program|
        ensures Allows(program[i].occurrences, counts[i])
      {
        assert Allows(program[1..][i - 1].occurrences, rest[i - 1]);
      }
      assert children == children[..count] + children[count..];
    }
  }

  // ----- what an assignment means

  /** How often a particle is assigned. */
  function Times(a: seq<nat>, x: nat): nat {
    if a == [] then 0 else (if a[0] == x then 1 else 0) + Times(a[1..], x)
  }

  lemma {:induction false} TimesConcat(a: seq<nat>, b: seq<nat>, x: nat)
    ensures Times(a + b, x) == Times(a, x) + Times(b, x)
  {
    if a == [] {
      assert a + b == b;
    } else {
      TimesConcat(a[1..], b, x);
      assert (a + b)[1..] == a[1..] + b;
    }
  }

  /** Every child is assigned a particle of its name, in order. */
  lemma {:induction false} AssignmentMeans(program: seq<Planned>, counts: seq<nat>, first: nat)
    requires |counts| == |program|
    ensures var children, a := Spell(program, counts), Assignment(counts, first);
      && |a| == |children|
      && (forall k :: 0 <= k < |a| ==>
            first <= a[k] < first + |program| && program[a[k] - first].name == children[k])
      && (forall j, k :: 0 <= j < k < |a| ==> a[j] <= a[k])
    decreases |program|
  {
    if program != [] {
      AssignmentMeans(program[1..], counts[1..], first + 1);
      var n := counts[0];
      var tail, rest := Assignment(counts[1..], first + 1), Spell(program[1..], counts[1..]);
      var a, children := Assignment(counts, first), Spell(program, counts);
      assert a == seq(n, i => first) + tail && children == Repeat(program[0].name, n) + rest;
      hide Assignment, Spell, Repeat;
      forall k | 0 <= k < |a|
        ensures first <= a[k] < first + |program| && program[a[k] - first].name == children[k]
      {
        if k >= n {
          assert a[k] == tail[k - n] && children[k] == rest[k - n];
          assert program[1..][a[k] - (first + 1)] == program[a[k] - first];
        }
      }
    }
  }

  /** Each particle is assigned as many children as its count. */
  lemma {:induction false} AssignmentCounts(counts: seq<nat>, first: nat, x: nat)
    ensures Times(Assignment(counts, first), x) == if first <= x < first + |counts| then counts[x - first] else 0
    decreases |counts|
  {
    if counts != [] {
      var head, tail := seq(counts[0], i => first), Assignment(counts[1..], first + 1);
      AssignmentCounts(counts[1..], first + 1, x);
      TimesConcat(head, tail, x);
      AllAlike(head, first, x);
      assert first < x < first + |counts| ==> counts[1..][x - (first + 1)] == counts[x - first];
    }
  }

  lemma {:induction false} AllAlike(a: seq<nat>, y: nat, x: nat)
    requires forall k :: 0 <= k < |a| ==> a[k] == y
    ensures Times(a, x) == if y == x then |a| else 0
    decreases |a|
  {
    if a != [] {
      AllAlike(a[1..], y, x);
    }
  }

  // ----- what a rejection means

  /** The first particles take their counts, one after the other, up to an index. */
  ghost predicate Runs(children: seq<QName>, program: seq<Planned>, counts: seq<nat>, index: nat)
    requires ValidProgram(program)
  {
    && |counts| <= |program| && index <= |children|
    && children[..index] == Spell(program[..|counts|], counts)
    && (forall i :: 0 <= i < |counts| ==> Allows(program[i].occurrences, counts[i]))
  }

  /**
   * A missing particle is the first that finds fewer children of its name than
   * it needs; an unexpected child is the first that no particle is left for.
   */
  ghost predicate Rejects(children: seq<QName>, program: seq<Planned>, error: MatchError, counts: seq<nat>, index: nat)
    requires ValidProgram(program)
  {
    && Runs(children, program, counts, index)
    && match error
       case Missing(name) =>
         && |counts| < |program| && name == program[|counts|].name
         && !(Repeat(name, Min(program[|counts|])) <= children[index..])
       case Unexpected(name) => |counts| == |program| && index < |children| && children[index] == name
  }

  lemma TooFew(children: seq<QName>, p: Planned)
    requires ValidRange(p.occurrences) && Take(children, p) < Min(p)
    ensures !(Repeat(p.name, Min(p)) <= children)
  {
    var n := Take(children, p);
    hide Take;
    assert Repeat(p.name, Min(p))[n] == p.name;
  }

  lemma {:induction false} RejectionMeans(children: seq<QName>, program: seq<Planned>)
    returns (counts: seq<nat>, index: nat)
    requires ValidProgram(program) && Greedy(children, program).Err?
    ensures Rejects(children, program, Greedy(children, program).error, counts, index)
    decreases |program|
  {
    counts, index := [], 0;
    assert program[..0] == [] && children[..0] == [] && children[0..] == children;
    if program != [] {
      var count := Take(children, program[0]);
      if count < Min(program[0]) {
        TooFew(children, program[0]);
      } else {
        var more, after := RejectionMeans(children[count..], program[1..]);
        counts, index := [count] + more, count + after;
        hide Take, Greedy, Repeat;
        RunsOn(children, program, count, more, after);
      }
    }
  }

  lemma RunsOn(children: seq<QName>, program: seq<Planned>, count: nat, more: seq<nat>, after: nat)
    requires ValidProgram(program) && program != [] && count <= |children|
    requires children[..count] == Repeat(program[0].name, count) && Allows(program[0].occurrences, count)
    requires Runs(children[count..], program[1..], more, after)
    ensures Runs(children, program, [count] + more, count + after)
    ensures children[count + after..] == children[count..][after..]
    ensures |more| < |program[1..]| ==> program[1..][|more|] == program[|more| + 1]
  {
    hide Repeat;
    var counts := [count] + more;
    assert program[..|counts|][1..] == program[1..][..|more|] && counts[1..] == more;
    assert children[..count + after] == children[..count] + children[count..][..after];
    forall i | 0 <= i < |counts|
      ensures Allows(program[i].occurrences, counts[i])
    {
      if i > 0 {
        assert Allows(program[1..][i - 1].occurrences, more[i - 1]);
      }
    }
  }

  // ----- unambiguous programs

  /**
   * Unique Particle Attribution (section 3.8.6 of XML Schema Part 1) for plain
   * sequences: a particle followed, across optional particles only, by one of
   * its own name that can occur has an exact count.
   */
  ghost predicate Deterministic(program: seq<Planned>)
    requires ValidProgram(program)
  {
    forall i, j :: Competes(program, i, j) ==> !MayOccur(program[i], Min(program[i]) + 1)
  }

  /** Particle `j` can follow particle `i` immediately, with the same name. */
  ghost predicate Competes(program: seq<Planned>, i: int, j: int)
    requires ValidProgram(program)
  {
    && 0 <= i < j < |program|
    && program[i].name == program[j].name
    && MayOccur(program[j], 1)
    && forall k :: i < k < j ==> Min(program[k]) == 0
  }

  lemma DeterministicTail(program: seq<Planned>)
    requires ValidProgram(program) && program != [] && Deterministic(program)
    ensures ValidProgram(program[1..]) && Deterministic(program[1..])
  {
    var tail := program[1..];
    assert forall k :: 0 <= k < |tail| ==> tail[k] == program[k + 1];
    forall i, j | Competes(tail, i, j)
      ensures !MayOccur(tail[i], Min(tail[i]) + 1)
    {
      forall k | i + 1 < k < j + 1
        ensures Min(program[k]) == 0
      {
        assert Min(tail[k - 1]) == 0;
      }
      assert Competes(program, i + 1, j + 1);
    }
  }

  /** The first child spelled belongs to the first particle with a positive count. */
  lemma {:induction false} FirstSpelled(program: seq<Planned>, counts: seq<nat>) returns (j: nat)
    requires |counts| == |program| && Spell(program, counts) != []
    ensures j < |program| && counts[j] > 0 && program[j].name == Spell(program, counts)[0]
    ensures forall k :: 0 <= k < j ==> counts[k] == 0
    decreases |program|
  {
    if counts[0] > 0 {
      j := 0;
    } else {
      assert Spell(program, counts) == Spell(program[1..], counts[1..]);
      var rest := FirstSpelled(program[1..], counts[1..]);
      j := rest + 1;
      assert forall k :: 0 < k < j ==> counts[k] == counts[1..][k - 1];
    }
  }

  /** On an unambiguous program the greedy match finds every partition. */
  lemma {:induction false} GreedyIsComplete(children: seq<QName>, program: seq<Planned>, counts: seq<nat>)
    requires ValidProgram(program) && Deterministic(program)
    requires Partition(children, program, counts)
    ensures Greedy(children, program) == Ok(counts)
    decreases |program|
  {
    if program == [] {
      assert counts == [];
    } else {
      var count := counts[0];
      var rest, tail := counts[1..], program[1..];
      PartitionHead(children, program, counts);
      hide Spell, Repeat, Greedy, Take;
      if count < |children| && children[count] == program[0].name {
        var j := FirstSpelled(tail, rest);
        forall k | 0 < k < j + 1
          ensures Min(program[k]) == 0
        {
          assert Allows(program[k].occurrences, counts[k]) && counts[k] == rest[k - 1] == 0;
        }
        assert Allows(program[j + 1].occurrences, counts[j + 1]) && counts[j + 1] == rest[j] > 0;
        assert Competes(program, 0, j + 1);
      }
      TakeUnique(children, program[0], count);
      DeterministicTail(program);
      forall i | 0 <= i < |tail|
        ensures Allows(tail[i].occurrences, rest[i])
      {
        assert Allows(program[i + 1].occurrences, counts[i + 1]);
      }
      GreedyIsComplete(children[count..], tail, rest);
      GreedyHead(children, program, count, rest);
      assert [count] + rest == counts;
    }
  }

  lemma PartitionHead(children: seq<QName>, program: seq<Planned>, counts: seq<nat>)
    requires Partition(children, program, counts) && program != []
    ensures var count := counts[0];
      && count <= |children| && Allows(program[0].occurrences, count)
      && children[..count] == Repeat(program[0].name, count) && children[count..] == Spell(program[1..], counts[1..])
  {
    assert Spell(program, counts) == Repeat(program[0].name, counts[0]) + Spell(program[1..], counts[1..]);
  }

  lemma GreedyHead(children: seq<QName>, program: seq<Planned>, count: nat, rest: seq<nat>)
    requires ValidProgram(program) && program != [] && Take(children, program[0]) == count >= Min(program[0])
    requires Greedy(children[count..], program[1..]) == Ok(rest)
    ensures Greedy(children, program) == Ok([count] + rest)
  {
  }

  /** Every child list has at most one partition and the greedy match accepts exactly those that have one. */
  ghost predicate DecidesUniquely(program: seq<Planned>)
    requires ValidProgram(program)
  {
    forall children, counts :: Partition(children, program, counts) ==> Greedy(children, program) == Ok(counts)
  }

  lemma {:induction false} SpellSplit(program: seq<Planned>, counts: seq<nat>, i: nat)
    requires |counts| == |program| && i <= |program|
    ensures Spell(program, counts) == Spell(program[..i], counts[..i]) + Spell(program[i..], counts[i..])
    decreases i
  {
    if i > 0 {
      SpellSplit(program[1..], counts[1..], i - 1);
      assert program[1..][..i - 1] == program[..i][1..] && counts[1..][..i - 1] == counts[..i][1..];
      assert program[1..][i - 1..] == program[i..] && counts[1..][i - 1..] == counts[i..];
    }
  }

  lemma {:induction false} SpellNothing(program: seq<Planned>, counts: seq<nat>)
    requires |counts| == |program| && forall k :: 0 <= k < |counts| ==> counts[k] == 0
    ensures Spell(program, counts) == []
    decreases |program|
  {
    if program != [] {
      SpellNothing(program[1..], counts[1..]);
    }
  }

  lemma SpellHead(program: seq<Planned>, counts: seq<nat>, i: nat)
    requires |counts| == |program| && i < |program|
    ensures Spell(program[i..], counts[i..]) ==
      Repeat(program[i].name, counts[i]) + Spell(program[i + 1..], counts[i + 1..])
  {
    assert program[i..][1..] == program[i + 1..] && counts[i..][1..] == counts[i + 1..];
  }

  lemma {:induction false} SpellSkip(program: seq<Planned>, counts: seq<nat>, i: nat, j: nat)
    requires |counts| == |program| && i <= j <= |program|
    requires forall k :: i <= k < j ==> counts[k] == 0
    ensures Spell(program[i..], counts[i..]) == Spell(program[j..], counts[j..])
    decreases j - i
  {
    hide Spell;
    if i < j {
      SpellHead(program, counts, i);
      assert Repeat(program[i].name, 0) == [];
      SpellSkip(program, counts, i + 1, j);
    }
  }

  lemma RepeatJoin(name: QName, a: nat, b: nat, rest: seq<QName>)
    ensures Repeat(name, a) + (Repeat(name, b) + rest) == Repeat(name, a + b) + rest
  {
  }

  /** Before particle `i`, then its own run and that of its competitor `j`, then the rest. */
  lemma SpellCompeting(program: seq<Planned>, counts: seq<nat>, i: nat, j: nat)
    requires |counts| == |program| && i < j < |program| && program[i].name == program[j].name
    requires forall k :: i < k < j ==> counts[k] == 0
    ensures Spell(program, counts) ==
      Spell(program[..i], counts[..i]) +
        (Repeat(program[i].name, counts[i] + counts[j]) + Spell(program[j + 1..], counts[j + 1..]))
  {
    hide Spell, Repeat;
    SpellSplit(program, counts, i);
    SpellHead(program, counts, i);
    SpellSkip(program, counts, i + 1, j);
    SpellHead(program, counts, j);
    RepeatJoin(program[i].name, counts[i], counts[j], Spell(program[j + 1..], counts[j + 1..]));
  }

  /** Greedy counts stop only for a reason: the next child differs or the maximum is reached. */
  lemma {:induction false} GreedyStopsForAReason(children: seq<QName>, program: seq<Planned>, counts: seq<nat>, i: nat)
    requires ValidProgram(program) && i < |program| && |counts| == |program|
    requires Greedy(children, program) == Ok(counts)
    ensures var from := |Spell(program[..i], counts[..i])| + counts[i];
      from <= |children| &&
        (from < |children| && children[from] == program[i].name ==> !MayOccur(program[i], counts[i] + 1))
    decreases |program|
  {
    GreedyCounts(children, program);
    hide Greedy, MayOccur, Repeat, Spell;
    var count, rest := Take(children, program[0]), counts[1..];
    assert counts[0] == count;
    hide Take;
    if i == 0 {
      NothingSpelled(program, counts);
    } else {
      GreedyStopsForAReason(children[count..], program[1..], rest, i - 1);
      SpellPrefix(program, counts, i);
      RepeatLength(program[0].name, count);
      var inner := |Spell(program[1..][..i - 1], rest[..i - 1])| + rest[i - 1];
      assert program[1..][i - 1] == program[i] && rest[i - 1] == counts[i];
      assert |Spell(program[..i], counts[..i])| + counts[i] == count + inner;
      if count + inner < |children| {
        assert children[count..][inner] == children[count + inner];
      }
    }
  }

  lemma RepeatLength(name: QName, n: nat)
    ensures |Repeat(name, n)| == n
  {
  }

  lemma NothingSpelled(program: seq<Planned>, counts: seq<nat>)
    requires |counts| == |program|
    ensures Spell(program[..0], counts[..0]) == []
  {
  }

  lemma SpellPrefix(program: seq<Planned>, counts: seq<nat>, i: nat)
    requires |counts| == |program| && 0 < i <= |program|
    ensures Spell(program[..i], counts[..i]) ==
      Repeat(program[0].name, counts[0]) + Spell(program[1..][..i - 1], counts[1..][..i - 1])
  {
    assert program[..i][1..] == program[1..][..i - 1] && counts[..i][1..] == counts[1..][..i - 1];
  }

  ghost function LeastCounts(program: seq<Planned>): (counts: seq<nat>)
    requires ValidProgram(program)
    ensures |counts| == |program| && forall i :: 0 <= i < |program| ==> counts[i] == Min(program[i])
  {
    seq(|program|, i requires 0 <= i < |program| => Min(program[i]))
  }

  /** Two particles that may each take one child more: two partitions of the same children. */
  lemma TwoPartitions(program: seq<Planned>, i: nat, j: nat)
    requires ValidProgram(program) && Competes(program, i, j)
    requires MayOccur(program[i], Min(program[i]) + 1) && MayOccur(program[j], Min(program[j]) + 1)
    ensures !DecidesUniquely(program)
  {
    hide Spell, Repeat, Greedy;
    var least := LeastCounts(program);
    var c, d := least[i := least[i] + 1], least[j := least[j] + 1];
    SpellCompeting(program, c, i, j);
    SpellCompeting(program, d, i, j);
    assert c[..i] == d[..i] && c[j + 1..] == d[j + 1..];
    var children := Spell(program, c);
    assert Partition(children, program, c) && Partition(children, program, d);
    assert c[i] != d[i];
  }

  /** A competitor with an exact count: the greedy match starves it on the least children. */
  lemma StarvedCompetitor(program: seq<Planned>, i: nat, j: nat)
    requires ValidProgram(program) && Competes(program, i, j)
    requires MayOccur(program[i], Min(program[i]) + 1) && !MayOccur(program[j], Min(program[j]) + 1)
    ensures !DecidesUniquely(program)
  {
    hide Spell, Greedy;
    var least := LeastCounts(program);
    var children := Spell(program, least);
    assert Partition(children, program, least);
    SpellCompeting(program, least, i, j);
    var from := |Spell(program[..i], least[..i])| + least[i];
    assert children[from] == program[i].name;
    if Greedy(children, program) == Ok(least) {
      GreedyStopsForAReason(children, program, least, i);
    }
  }

  lemma CompetitionDefeatsGreedy(program: seq<Planned>, i: nat, j: nat)
    requires ValidProgram(program) && Competes(program, i, j)
    requires MayOccur(program[i], Min(program[i]) + 1)
    ensures !DecidesUniquely(program)
  {
    if MayOccur(program[j], Min(program[j]) + 1) {
      TwoPartitions(program, i, j);
    } else {
      StarvedCompetitor(program, i, j);
    }
  }

  /** The greedy match decides every child list, uniquely, exactly for the unambiguous programs. */
  lemma GreedyDecidesExactlyDeterministic(program: seq<Planned>)
    requires ValidProgram(program)
    ensures DecidesUniquely(program) <==> Deterministic(program)
  {
    if Deterministic(program) {
      forall children, counts | Partition(children, program, counts)
        ensures Greedy(children, program) == Ok(counts)
      {
        GreedyIsComplete(children, program, counts);
      }
    } else {
      var i, j :| Competes(program, i, j) && MayOccur(program[i], Min(program[i]) + 1);
      CompetitionDefeatsGreedy(program, i, j);
    }
  }

  // ----- acceptance, without uniqueness

  /** The greedy match accepts every child list that has a partition. */
  ghost predicate AcceptsEveryPartition(program: seq<Planned>)
    requires ValidProgram(program)
  {
    forall children, counts :: Partition(children, program, counts) ==> Greedy(children, program).Ok?
  }

  /** What a particle may take beyond its minimum, no competitor needs. */
  ghost predicate Tolerant(program: seq<Planned>)
    requires ValidProgram(program)
  {
    forall i, j :: Competes(program, i, j) && MayOccur(program[i], Min(program[i]) + 1) ==> Min(program[j]) == 0
  }

  lemma TolerantTail(program: seq<Planned>)
    requires ValidProgram(program) && program != [] && Tolerant(program)
    ensures ValidProgram(program[1..]) && Tolerant(program[1..])
  {
    var tail := program[1..];
    assert forall k :: 0 <= k < |tail| ==> tail[k] == program[k + 1];
    forall i, j | Competes(tail, i, j) && MayOccur(tail[i], Min(tail[i]) + 1)
      ensures Min(tail[j]) == 0
    {
      forall k | i + 1 < k < j + 1
        ensures Min(program[k]) == 0
      {
        assert Min(tail[k - 1]) == 0;
      }
      assert Competes(program, i + 1, j + 1);
    }
  }

  /** The particles of a name that the start of the program can reach need no child. */
  ghost predicate SparesFirst(program: seq<Planned>, name: QName)
    requires ValidProgram(program)
  {
    forall j :: 0 <= j < |program| && Leads(program, name, j) ==> Min(program[j]) == 0
  }

  ghost predicate Leads(program: seq<Planned>, name: QName, j: nat)
    requires ValidProgram(program) && j < |program|
  {
    program[j].name == name && MayOccur(program[j], 1) && forall k :: 0 <= k < j ==> Min(program[k]) == 0
  }

  lemma TolerantSpares(program: seq<Planned>)
    requires ValidProgram(program) && program != [] && Tolerant(program)
    requires MayOccur(program[0], Min(program[0]) + 1)
    ensures ValidProgram(program[1..]) && SparesFirst(program[1..], program[0].name)
  {
    var tail := program[1..];
    assert forall k :: 0 <= k < |tail| ==> tail[k] == program[k + 1];
    forall j | 0 <= j < |tail| && Leads(tail, program[0].name, j)
      ensures Min(tail[j]) == 0
    {
      forall k | 0 < k < j + 1
        ensures Min(program[k]) == 0
      {
        assert Min(tail[k - 1]) == 0;
      }
      assert Competes(program, 0, j + 1);
    }
  }

  lemma SparesTail(program: seq<Planned>, name: QName)
    requires ValidProgram(program) && program != [] && SparesFirst(program, name) && Min(program[0]) == 0
    ensures ValidProgram(program[1..]) && SparesFirst(program[1..], name)
  {
    var tail := program[1..];
    forall j | 0 <= j < |tail| && Leads(tail, name, j)
      ensures Min(tail[j]) == 0
    {
      forall k | 0 <= k < j + 1
        ensures Min(program[k]) == 0
      {
        if k > 0 { assert Min(tail[k - 1]) == 0; }
      }
      assert Leads(program, name, j + 1);
    }
  }

  ghost predicate AllAllowed(program: seq<Planned>, counts: seq<nat>) {
    |counts| == |program| && forall i :: 0 <= i < |program| ==> Allows(program[i].occurrences, counts[i])
  }

  lemma AllowedTail(program: seq<Planned>, counts: seq<nat>)
    requires AllAllowed(program, counts) && program != []
    ensures Allows(program[0].occurrences, counts[0]) && AllAllowed(program[1..], counts[1..])
  {
    forall i | 0 <= i < |program| - 1
      ensures Allows(program[1..][i].occurrences, counts[1..][i])
    {
      assert Allows(program[i + 1].occurrences, counts[i + 1]);
    }
  }

  lemma AllowedCons(program: seq<Planned>, count: nat, counts: seq<nat>)
    requires program != [] && Allows(program[0].occurrences, count) && AllAllowed(program[1..], counts)
    ensures AllAllowed(program, [count] + counts)
    ensures Spell(program, [count] + counts) == Repeat(program[0].name, count) + Spell(program[1..], counts)
  {
    assert ([count] + counts)[1..] == counts;
    forall i | 0 <= i < |program|
      ensures Allows(program[i].occurrences, ([count] + counts)[i])
    {
      if i > 0 { assert Allows(program[1..][i - 1].occurrences, counts[i - 1]); }
    }
  }

  lemma RepeatDrop(name: QName, n: nat, m: nat, rest: seq<QName>)
    requires m <= n
    ensures (Repeat(name, n) + rest)[m..] == Repeat(name, n - m) + rest
  {
  }

  lemma RepeatOver(name: QName, n: nat, m: nat, rest: seq<QName>)
    requires n <= m <= n + |rest|
    ensures (Repeat(name, n) + rest)[m..] == rest[m - n..]
    ensures (Repeat(name, n) + rest)[..m] == Repeat(name, m) ==> rest[..m - n] == Repeat(name, m - n)
  {
    if (Repeat(name, n) + rest)[..m] == Repeat(name, m) {
      assert rest[..m - n] == (Repeat(name, n) + rest)[..m][n..];
    }
  }

  /** Children that an earlier particle took can be spared: the rest still has a partition. */
  lemma {:induction false} Spare(program: seq<Planned>, counts: seq<nat>, name: QName, spared: nat)
    returns (left: seq<nat>)
    requires ValidProgram(program) && SparesFirst(program, name) && AllAllowed(program, counts)
    requires spared <= |Spell(program, counts)| && Spell(program, counts)[..spared] == Repeat(name, spared)
    ensures AllAllowed(program, left) && Spell(program, left) == Spell(program, counts)[spared..]
    decreases |program|
  {
    if spared == 0 {
      left := counts;
    } else {
      var count, rest, tail := counts[0], counts[1..], program[1..];
      var more := Spell(tail, rest);
      assert Spell(program, counts) == Repeat(program[0].name, count) + more;
      AllowedTail(program, counts);
      if count > 0 {
        assert program[0].name == Spell(program, counts)[..spared][0] == name;
        assert Leads(program, name, 0);
      }
      assert Min(program[0]) == 0;
      hide Spell, Repeat, AllAllowed, SparesFirst;
      if spared <= count {
        AllowedCons(program, count - spared, rest);
        RepeatDrop(program[0].name, count, spared, more);
        left := [count - spared] + rest;
      } else {
        SparesTail(program, name);
        SpareLength(program[0].name, count, more, spared);
        if count == 0 {
          NothingRepeated(program[0].name, more);
        } else {
          RepeatOver(name, count, spared, more);
        }
        var after := Spare(tail, rest, name, spared - count);
        AllowedCons(program, 0, after);
        NothingRepeated(program[0].name, Spell(tail, after));
        left := [0] + after;
      }
    }
  }

  lemma SpareLength(name: QName, n: nat, rest: seq<QName>, m: nat)
    requires m <= |Repeat(name, n) + rest|
    ensures m <= n + |rest|
  {
  }

  lemma NothingRepeated(name: QName, rest: seq<QName>)
    ensures Repeat(name, 0) + rest == rest
  {
  }

  /** The longest run is at least any allowed one, and what it takes beyond starts the rest. */
  lemma TakeAtLeast(children: seq<QName>, p: Planned, n: nat)
    requires n <= |children| && children[..n] == Repeat(p.name, n) && MayOccur(p, n)
    ensures n <= Take(children, p)
    ensures children[n..][..Take(children, p) - n] == Repeat(p.name, Take(children, p) - n)
    ensures children[n..][Take(children, p) - n..] == children[Take(children, p)..]
  {
    var taken := Take(children, p);
    forall k | 0 <= k < n
      ensures children[k] == p.name
    {
      assert children[..n][k] == p.name;
    }
    assert children[n..][..taken - n] == children[..taken][n..];
  }

  lemma {:induction false} TolerantAccepts(children: seq<QName>, program: seq<Planned>, counts: seq<nat>)
    requires ValidProgram(program) && Tolerant(program)
    requires Partition(children, program, counts)
    ensures Greedy(children, program).Ok?
    decreases |program|
  {
    if program != [] {
      PartitionHead(children, program, counts);
      var count, rest, tail := counts[0], counts[1..], program[1..];
      assert AllAllowed(program, counts);
      AllowedTail(program, counts);
      hide Spell, Repeat, Greedy, Take, AllAllowed, Tolerant, Partition, Allows, MayOccur;
      TakeAtLeast(children, program[0], count);
      TolerantTail(program);
      var taken := Take(children, program[0]);
      var after := rest;
      if taken > count {
        TolerantSpares(program);
        after := Spare(tail, rest, program[0].name, taken - count);
      } else {
        assert children[count..][0..] == children[count..];
      }
      assert Partition(children[taken..], tail, after) by { AllowedPartition(children[taken..], tail, after); }
      TolerantAccepts(children[taken..], tail, after);
      GreedyHead(children, program, taken, Greedy(children[taken..], tail).value);
    }
  }

  lemma AllowedPartition(children: seq<QName>, program: seq<Planned>, counts: seq<nat>)
    requires AllAllowed(program, counts) && Spell(program, counts) == children
    ensures Partition(children, program, counts)
  {
  }

  /** Counts that are nowhere below and spell no more are the same. */
  lemma {:induction false} LeastIsOnly(program: seq<Planned>, least: seq<nat>, counts: seq<nat>)
    requires |least| == |counts| == |program| && forall i :: 0 <= i < |program| ==> least[i] <= counts[i]
    ensures |Spell(program, least)| <= |Spell(program, counts)|
    ensures |Spell(program, least)| == |Spell(program, counts)| ==> least == counts
    decreases |program|
  {
    if program != [] {
      LeastIsOnly(program[1..], least[1..], counts[1..]);
      RepeatLength(program[0].name, least[0]);
      RepeatLength(program[0].name, counts[0]);
      assert least == [least[0]] + least[1..] && counts == [counts[0]] + counts[1..];
    }
  }

  /** A competitor that needs children is starved on the least children. */
  lemma NeedyCompetitor(program: seq<Planned>, i: nat, j: nat)
    requires ValidProgram(program) && Competes(program, i, j)
    requires MayOccur(program[i], Min(program[i]) + 1) && Min(program[j]) > 0
    ensures var children := Spell(program, LeastCounts(program));
      Partition(children, program, LeastCounts(program)) && Greedy(children, program).Err?
  {
    hide Spell, Greedy;
    var least := LeastCounts(program);
    var children := Spell(program, least);
    assert Partition(children, program, least);
    SpellCompeting(program, least, i, j);
    var from := |Spell(program[..i], least[..i])| + least[i];
    assert children[from] == program[i].name;
    if Greedy(children, program).Ok? {
      GreedyIsSound(children, program);
      LeastIsOnly(program, least, Greedy(children, program).value);
      GreedyStopsForAReason(children, program, least, i);
    }
  }

  /** No list that has a partition is rejected exactly when competitors of flexible particles are optional. */
  lemma GreedyAcceptsExactlyTolerant(program: seq<Planned>)
    requires ValidProgram(program)
    ensures AcceptsEveryPartition(program) <==> Tolerant(program)
  {
    if Tolerant(program) {
      forall children, counts | Partition(children, program, counts)
        ensures Greedy(children, program).Ok?
      {
        TolerantAccepts(children, program, counts);
      }
    } else {
      var i, j :| Competes(program, i, j) && MayOccur(program[i], Min(program[i]) + 1) && Min(program[j]) > 0;
      NeedyCompetitor(program, i, j);
    }
  }
}
