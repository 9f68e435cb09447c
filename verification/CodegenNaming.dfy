/** The case-folded name allocator and the naming tables built with it (codegen_naming.go). */
module CodegenNaming {
  import opened Wrappers
  import opened DecimalText

  // ----- case folding over an unseen Unicode fold

  /** The `n`-th simple fold of a character. */
  ghost function Iterate(simpleFold: char -> char, c: char, n: nat): char {
    if n == 0 then c else simpleFold(Iterate(simpleFold, c, n - 1))
  }

  ghost predicate InOrbit(simpleFold: char -> char, c: char, x: char) {
    exists n: nat :: Iterate(simpleFold, c, n) == x
  }

  /** Simple folding returns to the character after a positive number of steps. */
  ghost predicate Returns(simpleFold: char -> char, c: char, period: nat) {
    period > 0 && Iterate(simpleFold, c, period) == c
  }

  ghost predicate IsLeast(simpleFold: char -> char, c: char, least: char) {
    InOrbit(simpleFold, c, least) && forall x :: InOrbit(simpleFold, c, x) ==> least <= x
  }

  /** The least character of the folding orbit. */
  method FoldRune(simpleFold: char -> char, character: char, ghost period: nat) returns (minimum: char)
    requires Returns(simpleFold, character, period)
    ensures IsLeast(simpleFold, character, minimum)
  {
    minimum := character;
    var current := character;
    ghost var steps := 0;
    assert Iterate(simpleFold, character, 0) == character;
    while true
      invariant steps < period && current == Iterate(simpleFold, character, steps)
      invariant InOrbit(simpleFold, character, minimum)
      invariant forall n: nat :: n <= steps ==> minimum <= Iterate(simpleFold, character, n)
      decreases period - steps
    {
      var next := simpleFold(current);
      assert next == Iterate(simpleFold, character, steps + 1);
      if next == character {
        forall x | InOrbit(simpleFold, character, x)
          ensures minimum <= x
        {
          var n: nat :| Iterate(simpleFold, character, n) == x;
          var m := WithinPeriod(simpleFold, character, steps + 1, n);
        }
        return;
      }
      if next < minimum {
        minimum := next;
      }
      current := next;
      steps := steps + 1;
    }
  }

  lemma {:induction false} WithinPeriod(simpleFold: char -> char, c: char, period: nat, n: nat) returns (m: nat)
    requires Returns(simpleFold, c, period)
    ensures m < period && Iterate(simpleFold, c, m) == Iterate(simpleFold, c, n)
  {
    if n == 0 {
      m := 0;
    } else {
      var k := WithinPeriod(simpleFold, c, period, n - 1);
      m := if k + 1 == period then 0 else k + 1;
    }
  }

  lemma {:induction false} IterateAdds(simpleFold: char -> char, c: char, a: nat, b: nat)
    ensures Iterate(simpleFold, Iterate(simpleFold, c, a), b) == Iterate(simpleFold, c, a + b)
  {
    if b > 0 {
      IterateAdds(simpleFold, c, a, b - 1);
    }
  }

  /** Characters of one orbit have one orbit, hence one folded character. */
  lemma OrbitIsShared(simpleFold: char -> char, c: char, d: char, period: nat, x: char)
    requires Returns(simpleFold, c, period) && InOrbit(simpleFold, c, d)
    ensures InOrbit(simpleFold, c, x) <==> InOrbit(simpleFold, d, x)
  {
    var n: nat :| Iterate(simpleFold, c, n) == d;
    var m := WithinPeriod(simpleFold, c, period, n);
    if InOrbit(simpleFold, d, x) {
      var k: nat :| Iterate(simpleFold, d, k) == x;
      IterateAdds(simpleFold, c, m, k);
    }
    if InOrbit(simpleFold, c, x) {
      var k: nat :| Iterate(simpleFold, c, k) == x;
      IterateAdds(simpleFold, c, m, period - m);
      IterateAdds(simpleFold, d, period - m, k);
    }
  }

  /** Every character comes back to itself. */
  ghost predicate FiniteOrbits(simpleFold: char -> char) {
    forall c :: ComesBack(simpleFold, c)
  }

  ghost predicate ComesBack(simpleFold: char -> char, c: char) {
    exists period: nat :: Returns(simpleFold, c, period)
  }

  /** The least of the characters at most `n` steps away. */
  lemma {:induction false} LeastWithin(simpleFold: char -> char, c: char, n: nat) returns (least: char)
    ensures exists k: nat :: k <= n && Iterate(simpleFold, c, k) == least
    ensures forall k: nat :: k <= n ==> least <= Iterate(simpleFold, c, k)
  {
    if n == 0 {
      least := Iterate(simpleFold, c, 0);
    } else {
      least := LeastWithin(simpleFold, c, n - 1);
      if Iterate(simpleFold, c, n) < least {
        least := Iterate(simpleFold, c, n);
      }
    }
  }

  lemma LeastExists(simpleFold: char -> char, c: char) returns (least: char)
    requires FiniteOrbits(simpleFold)
    ensures IsLeast(simpleFold, c, least)
  {
    assert ComesBack(simpleFold, c);
    var period: nat :| Returns(simpleFold, c, period);
    least := LeastWithin(simpleFold, c, period);
    forall x | InOrbit(simpleFold, c, x)
      ensures least <= x
    {
      var n: nat :| Iterate(simpleFold, c, n) == x;
      var m := WithinPeriod(simpleFold, c, period, n);
    }
  }

  /** The fold of the program: the least character of the orbit, in lower case. */
  ghost predicate FoldsBy(simpleFold: char -> char, lower: char -> char, fold: char -> char) {
    forall c, least :: IsLeast(simpleFold, c, least) ==> fold(c) == lower(least)
  }

  /** Lower case keeps the least characters of different orbits apart. */
  ghost predicate LowerSeparates(simpleFold: char -> char, lower: char -> char) {
    forall c, d, x, y :: IsLeast(simpleFold, c, x) && IsLeast(simpleFold, d, y) && lower(x) == lower(y) ==>
      InOrbit(simpleFold, c, d)
  }

  /** Characters of one orbit fold alike; folding alike means one orbit exactly where lower case separates orbits. */
  lemma FoldedAlike(simpleFold: char -> char, lower: char -> char, fold: char -> char, c: char, d: char)
    requires FiniteOrbits(simpleFold) && FoldsBy(simpleFold, lower, fold)
    ensures InOrbit(simpleFold, c, d) ==> fold(c) == fold(d)
    ensures LowerSeparates(simpleFold, lower) && fold(c) == fold(d) ==> InOrbit(simpleFold, c, d)
  {
    var x := LeastExists(simpleFold, c);
    var y := LeastExists(simpleFold, d);
    if InOrbit(simpleFold, c, d) {
      assert ComesBack(simpleFold, c);
      var period: nat :| Returns(simpleFold, c, period);
      OrbitIsShared(simpleFold, c, d, period, x);
      OrbitIsShared(simpleFold, c, d, period, y);
    }
  }

  ghost predicate SameOrbits(simpleFold: char -> char, s: string, t: string) {
    |s| == |t| && forall i :: 0 <= i < |s| ==> InOrbit(simpleFold, s[i], t[i])
  }

  lemma {:induction false} CaseFoldAt(fold: char -> char, s: string, i: nat)
    requires i < |s|
    ensures CaseFold(fold, s)[i] == fold(s[i])
    decreases |s|
  {
    if i < |s| - 1 {
      CaseFoldAt(fold, s[..|s| - 1], i);
    }
  }

  /** Names have equal keys exactly when their characters fold alike, one by one. */
  lemma EqualKeys(fold: char -> char, s: string, t: string)
    ensures CaseFold(fold, s) == CaseFold(fold, t) <==>
      |s| == |t| && forall i :: 0 <= i < |s| ==> fold(s[i]) == fold(t[i])
  {
    var a, b := CaseFold(fold, s), CaseFold(fold, t);
    hide CaseFold;
    forall i | 0 <= i < |s|
      ensures a[i] == fold(s[i])
    {
      CaseFoldAt(fold, s, i);
    }
    forall i | 0 <= i < |t|
      ensures b[i] == fold(t[i])
    {
      CaseFoldAt(fold, t, i);
    }
  }

  ghost predicate KeysTellOrbits(simpleFold: char -> char, fold: char -> char) {
    forall s, t :: CaseFold(fold, s) == CaseFold(fold, t) <==> SameOrbits(simpleFold, s, t)
  }

  /** Equal keys mean equal orbits, for all names, exactly when lower case keeps different orbits apart. */
  lemma KeysTellOrbitsExactly(simpleFold: char -> char, lower: char -> char, fold: char -> char)
    requires FiniteOrbits(simpleFold) && FoldsBy(simpleFold, lower, fold)
    ensures KeysTellOrbits(simpleFold, fold) <==> LowerSeparates(simpleFold, lower)
  {
    hide CaseFold, FiniteOrbits, InOrbit, IsLeast, FoldsBy;
    if LowerSeparates(simpleFold, lower) {
      forall s, t
        ensures CaseFold(fold, s) == CaseFold(fold, t) <==> SameOrbits(simpleFold, s, t)
      {
        EqualKeys(fold, s, t);
        forall i | 0 <= i < |s| && i < |t|
          ensures fold(s[i]) == fold(t[i]) <==> InOrbit(simpleFold, s[i], t[i])
        {
          FoldedAlike(simpleFold, lower, fold, s[i], t[i]);
        }
      }
    } else {
      var c, d, x, y :| IsLeast(simpleFold, c, x) && IsLeast(simpleFold, d, y) && lower(x) == lower(y)
        && !InOrbit(simpleFold, c, d);
      assert fold(c) == lower(x) && fold(d) == lower(y)
        by { FoldIs(simpleFold, lower, fold, c, x); FoldIs(simpleFold, lower, fold, d, y); }
      EqualKeys(fold, [c], [d]);
      assert !SameOrbits(simpleFold, [c], [d]) by { assert [c][0] == c && [d][0] == d; }
    }
  }

  lemma FoldIs(simpleFold: char -> char, lower: char -> char, fold: char -> char, c: char, least: char)
    requires FoldsBy(simpleFold, lower, fold) && IsLeast(simpleFold, c, least)
    ensures fold(c) == lower(least)
  {
  }

  function CaseFold(fold: char -> char, s: string): (key: string)
    ensures |key| == |s|
  {
    if s == "" then "" else CaseFold(fold, s[..|s| - 1]) + [fold(s[|s| - 1])]
  }

  /** Digits have no case. */
  ghost predicate KeepsDigits(fold: char -> char) {
    forall c :: IsDigit(c) ==> fold(c) == c
  }

  lemma {:induction false} CaseFoldConcat(fold: char -> char, a: string, b: string)
    ensures CaseFold(fold, a + b) == CaseFold(fold, a) + CaseFold(fold, b)
    decreases |b|
  {
    if b == "" {
      assert a + b == a;
    } else {
      CaseFoldConcat(fold, a, b[..|b| - 1]);
      assert (a + b)[..|a + b| - 1] == a + b[..|b| - 1];
    }
  }

  lemma {:induction false} CaseFoldDigits(fold: char -> char, s: string)
    requires KeepsDigits(fold) && AllDigits(s)
    ensures CaseFold(fold, s) == s
    decreases |s|
  {
    if s != "" {
      CaseFoldDigits(fold, s[..|s| - 1]);
    }
  }

  // ----- candidates and the first free one

  const MAX_SUFFIX: nat := 0xffff_ffff_ffff_ffff

  /** base, base2, base3, ... */
  function Candidate(base: string, k: nat): string
    requires k >= 1
  {
    if k == 1 then base else base + TextOf(k)
  }

  lemma CandidateKeysDiffer(fold: char -> char, base: string, j: nat, k: nat)
    requires KeepsDigits(fold) && 1 <= j < k
    ensures CaseFold(fold, Candidate(base, j)) != CaseFold(fold, Candidate(base, k))
  {
    hide CaseFold;
    var key := CaseFold(fold, base);
    CaseFoldConcat(fold, base, TextOf(k));
    CaseFoldDigits(fold, TextOf(k));
    if j > 1 {
      CaseFoldConcat(fold, base, TextOf(j));
      CaseFoldDigits(fold, TextOf(j));
      ValueOfText(j);
      ValueOfText(k);
      assert (key + TextOf(j))[|key|..] == TextOf(j);
      assert (key + TextOf(k))[|key|..] == TextOf(k);
    }
  }

  /** The first `n` candidates are all taken. */
  ghost predicate Taken(fold: char -> char, used: set<string>, base: string, n: nat) {
    forall j :: 1 <= j <= n ==> CaseFold(fold, Candidate(base, j)) in used
  }

  /** Pigeonhole: `n` taken candidates need `n` used keys. */
  lemma {:induction false} TakenNeedKeys(fold: char -> char, used: set<string>, base: string, n: nat)
    requires KeepsDigits(fold) && Taken(fold, used, base, n)
    ensures n <= |used|
    decreases n
  {
    hide CaseFold;
    if n > 0 {
      var key := CaseFold(fold, Candidate(base, n));
      forall j | 1 <= j <= n - 1
        ensures CaseFold(fold, Candidate(base, j)) in used - {key}
      {
        CandidateKeysDiffer(fold, base, j, n);
      }
      TakenNeedKeys(fold, used - {key}, base, n - 1);
    }
  }

  /** `name` is the first candidate whose folded key is free. */
  ghost predicate FirstFree(fold: char -> char, used: set<string>, base: string, name: string) {
    exists k: nat :: 1 <= k <= |used| + 1 && IsCandidate(base, k, name) && Taken(fold, used, base, k - 1) &&
      CaseFold(fold, name) !in used
  }

  ghost predicate IsCandidate(base: string, k: nat, name: string) {
    k >= 1 && name == Candidate(base, k)
  }

  /** The name is the base if its key is free, and else the base with the least number from two on whose key is free. */
  lemma FirstFreeMeans(fold: char -> char, used: set<string>, base: string, name: string)
    requires KeepsDigits(fold)
    ensures FirstFree(fold, used, base, name) <==>
      if CaseFold(fold, base) !in used then name == base
      else exists k: nat :: SuffixFree(fold, used, base, k) && name == base + TextOf(k)
  {
    hide CaseFold, TextOf;
    if FirstFree(fold, used, base, name) {
      var k: nat :| 1 <= k <= |used| + 1 && IsCandidate(base, k, name) && Taken(fold, used, base, k - 1) &&
        CaseFold(fold, name) !in used;
      if k > 1 {
        assert CaseFold(fold, Candidate(base, 1)) in used;
        forall j | 2 <= j < k
          ensures CaseFold(fold, base + TextOf(j)) in used
        {
          assert CaseFold(fold, Candidate(base, j)) in used;
        }
        assert SuffixFree(fold, used, base, k);
      }
    }
    if CaseFold(fold, base) !in used && name == base {
      assert IsCandidate(base, 1, name) && Taken(fold, used, base, 0);
    }
    if CaseFold(fold, base) in used {
      forall k: nat | SuffixFree(fold, used, base, k) && name == base + TextOf(k)
        ensures FirstFree(fold, used, base, name)
      {
        SuffixIsFirst(fold, used, base, k);
      }
    }
  }

  /** The number is the least from two on that makes a free key. */
  ghost predicate SuffixFree(fold: char -> char, used: set<string>, base: string, k: nat) {
    && k >= 2 && CaseFold(fold, base + TextOf(k)) !in used
    && forall j :: 2 <= j < k ==> CaseFold(fold, base + TextOf(j)) in used
  }

  lemma SuffixIsFirst(fold: char -> char, used: set<string>, base: string, k: nat)
    requires KeepsDigits(fold) && CaseFold(fold, base) in used && SuffixFree(fold, used, base, k)
    ensures FirstFree(fold, used, base, base + TextOf(k))
  {
    hide CaseFold, TextOf;
    forall j | 1 <= j <= k - 1
      ensures CaseFold(fold, Candidate(base, j)) in used
    {
    }
    assert Taken(fold, used, base, k - 1);
    TakenNeedKeys(fold, used, base, k - 1);
    assert IsCandidate(base, k, base + TextOf(k));
  }

  datatype NameError = InvalidName | Repeated | Exhausted

  class NameAllocator {
    const fold: char -> char
    var used: set<string>

    constructor (fold: char -> char)
      ensures this.fold == fold && used == {}
    {
      this.fold, used := fold, {};
    }

    method Reserve(candidate: string) returns (free: bool)
      modifies this
      ensures free <==> CaseFold(fold, candidate) !in old(used)
      ensures used == old(used) + {CaseFold(fold, candidate)}
    {
      var key := CaseFold(fold, candidate);
      if key in used {
        return false;
      }
      used := used + {key};
      return true;
    }

    /** Finds the first free candidate within one try more than the used keys, or exhausts every suffix. */
    method Allocate(base: string) returns (result: Result<string, NameError>)
      requires KeepsDigits(fold)
      modifies this
      ensures result.Ok? <==> !Taken(fold, old(used), base, MAX_SUFFIX)
      ensures result.Ok? ==>
        FirstFree(fold, old(used), base, result.value) && used == old(used) + {CaseFold(fold, result.value)}
      ensures result.Err? ==> result.error == Exhausted && used == old(used) && |used| >= MAX_SUFFIX
    {
      hide CaseFold, Taken, FirstFree, Candidate, TextOf;
      FirstCandidate(base);
      var free := Reserve(base);
      if free {
        FreeAt(fold, old(used), base, 1);
        return Ok(base);
      }
      NextTaken(fold, used, base, 0);
      var suffix := 2;
      while true
        invariant 2 <= suffix <= MAX_SUFFIX
        invariant used == old(used) && Taken(fold, used, base, suffix - 1)
        decreases MAX_SUFFIX - suffix
      {
        var candidate := base + TextOf(suffix);
        LaterCandidate(base, suffix);
        free := Reserve(candidate);
        if free {
          FreeAt(fold, old(used), base, suffix);
          return Ok(candidate);
        }
        assert used == old(used);
        NextTaken(fold, used, base, suffix - 1);
        if suffix == MAX_SUFFIX {
          TakenNeedKeys(fold, used, base, suffix);
          return Err(Exhausted);
        }
        suffix := suffix + 1;
      }
    }
  }

  lemma FirstCandidate(base: string)
    ensures Candidate(base, 1) == base
  {
  }

  lemma LaterCandidate(base: string, k: nat)
    requires k >= 2
    ensures Candidate(base, k) == base + TextOf(k)
  {
  }

  /** With no candidates before it the first one is taken or free. */
  lemma NextTaken(fold: char -> char, used: set<string>, base: string, n: nat)
    requires n == 0 || Taken(fold, used, base, n)
    requires CaseFold(fold, Candidate(base, n + 1)) in used
    ensures Taken(fold, used, base, n + 1)
  {
  }

  lemma FreeAt(fold: char -> char, used: set<string>, base: string, k: nat)
    requires KeepsDigits(fold) && k >= 1 && (k == 1 || Taken(fold, used, base, k - 1))
    requires k <= MAX_SUFFIX && CaseFold(fold, Candidate(base, k)) !in used
    ensures FirstFree(fold, used, base, Candidate(base, k))
    ensures !Taken(fold, used, base, MAX_SUFFIX)
  {
    hide CaseFold, Candidate;
    assert Taken(fold, used, base, k - 1);
    TakenNeedKeys(fold, used, base, k - 1);
    assert IsCandidate(base, k, Candidate(base, k));
  }

  // ----- lexical paths as index keys

  datatype ComponentID = ComponentID(source: string, ordinal: nat)

  function PathBody(path: seq<nat>): string {
    if path == [] then "" else TextOf(path[0]) + "/" + PathBody(path[1..])
  }

  function LexicalPathKey(path: seq<nat>): string {
    "/" + PathBody(path)
  }

  lemma {:induction false} PathBodyInjective(p: seq<nat>, q: seq<nat>)
    requires PathBody(p) == PathBody(q)
    ensures p == q
    decreases |p|
  {
    hide TextOf;
    if p == [] || q == [] {
      assert PathBody(p) == "" || PathBody(q) == "";
    } else {
      var a, b := TextOf(p[0]), TextOf(q[0]);
      var s, t := PathBody(p[1..]), PathBody(q[1..]);
      FirstSlash(a, s, b, t);
      ValueOfText(p[0]);
      ValueOfText(q[0]);
      PathBodyInjective(p[1..], q[1..]);
      assert p == [p[0]] + p[1..] && q == [q[0]] + q[1..];
    }
  }

  lemma FirstSlash(a: string, s: string, b: string, t: string)
    requires AllDigits(a) && AllDigits(b) && a + "/" + s == b + "/" + t
    ensures a == b && s == t
  {
    var left, right := a + "/" + s, b + "/" + t;
    assert left[|a|] == '/' && right[|b|] == '/';
    assert forall i :: 0 <= i < |a| ==> left[i] == a[i] != '/';
    assert forall i :: 0 <= i < |b| ==> right[i] == b[i] != '/';
    assert a == left[..|a|] && b == right[..|b|];
    assert s == left[|a| + 1..] && t == right[|b| + 1..];
  }

  /** Distinct lexical paths have distinct keys. */
  lemma PathKeysAreInjective(p: seq<nat>, q: seq<nat>)
    ensures LexicalPathKey(p) == LexicalPathKey(q) <==> p == q
  {
    if LexicalPathKey(p) == LexicalPathKey(q) {
      assert LexicalPathKey(p)[1..] == PathBody(p) && LexicalPathKey(q)[1..] == PathBody(q);
      PathBodyInjective(p, q);
    }
  }

  // ----- one table section: ordered records with an index

  datatype Named<K> = Named(key: K, identifier: string)

  /** A request with its scope problem, if any, and the identifier its name normalizes to. */
  datatype Request<K> = Request(key: K, problem: bool, identifier: Result<string, NameError>)

  /** Ordered records are the source of truth; the index agrees with them. */
  ghost predicate Indexes<K>(records: seq<Named<K>>, index: map<K, string>) {
    && (forall i, j :: 0 <= i < j < |records| ==> records[i].key != records[j].key)
    && (forall i :: 0 <= i < |records| ==> records[i].key in index && index[records[i].key] == records[i].identifier)
    && forall key :: key in index ==> exists i :: 0 <= i < |records| && records[i].key == key
  }

  lemma IndexesAppend<K>(records: seq<Named<K>>, index: map<K, string>, last: Named<K>)
    requires Indexes(records, index) && forall i :: 0 <= i < |records| ==> records[i].key != last.key
    ensures Indexes(records + [last], index[last.key := last.identifier])
  {
    var all := records + [last];
    assert forall i :: 0 <= i < |records| ==> all[i] == records[i];
    assert all[|records|] == last;
  }

  /** The folded keys of the records of a section. */
  function Keys<K>(fold: char -> char, records: seq<Named<K>>): (keys: set<string>)
    ensures forall i :: 0 <= i < |records| ==> CaseFold(fold, records[i].identifier) in keys
  {
    set i | 0 <= i < |records| :: CaseFold(fold, records[i].identifier)
  }

  /** Every record answers its request with the first candidate free at that point. */
  ghost predicate Answers<K>(fold: char -> char, used: set<string>, requests: seq<Request<K>>, records: seq<Named<K>>) {
    && |records| <= |requests|
    && forall i :: 0 <= i < |records| ==>
         && records[i].key == requests[i].key
         && !requests[i].problem && requests[i].identifier.Ok?
         && FirstFree(fold, used + Keys(fold, records[..i]), requests[i].identifier.value, records[i].identifier)
  }

  ghost predicate FoldDistinct<K>(fold: char -> char, used: set<string>, records: seq<Named<K>>) {
    && (forall i :: 0 <= i < |records| ==> CaseFold(fold, records[i].identifier) !in used)
    && forall i, j :: 0 <= i < j < |records| ==>
      CaseFold(fold, records[i].identifier) != CaseFold(fold, records[j].identifier)
  }

  lemma AnswersAreDistinct<K>(fold: char -> char, used: set<string>, requests: seq<Request<K>>, records: seq<Named<K>>)
    requires Answers(fold, used, requests, records)
    ensures FoldDistinct(fold, used, records)
  {
    hide CaseFold;
    forall i | 0 <= i < |records|
      ensures CaseFold(fold, records[i].identifier) !in used + Keys(fold, records[..i])
    {
      assert FirstFree(fold, used + Keys(fold, records[..i]), requests[i].identifier.value, records[i].identifier);
    }
    forall i, j | 0 <= i < j < |records|
      ensures CaseFold(fold, records[i].identifier) != CaseFold(fold, records[j].identifier)
    {
      assert records[..j][i] == records[i];
    }
  }

  /** What stops a section: a problem, a repeated key, a bad name, or no free suffix. */
  ghost predicate Stops<K>(requests: seq<Request<K>>, i: nat, error: NameError)
    requires i < |requests|
  {
    || (requests[i].problem && error == InvalidName)
    || (error == Repeated && exists j :: 0 <= j < i && requests[j].key == requests[i].key)
    || (requests[i].identifier.Err? && error == requests[i].identifier.error)
    || error == Exhausted
  }

  /** A request that no allocator could answer: it has a problem, no identifier, or the key of an earlier one. */
  ghost predicate FaultyAt<K>(requests: seq<Request<K>>, i: nat)
    requires i < |requests|
  {
    requests[i].problem || requests[i].identifier.Err? || exists j :: 0 <= j < i && requests[j].key == requests[i].key
  }

  ghost predicate Faulty<K>(requests: seq<Request<K>>) {
    exists i :: 0 <= i < |requests| && FaultyAt(requests, i)
  }

  lemma StoppedByFault<K>(requests: seq<Request<K>>, i: nat, error: NameError)
    requires i < |requests| && Stops(requests, i, error)
    requires error == Exhausted ==> requests[i].identifier == Err(Exhausted)
    ensures Faulty(requests)
  {
    assert FaultyAt(requests, i);
  }

  lemma AnsweredWithoutFault<K>(fold: char -> char, used: set<string>, requests: seq<Request<K>>,
    records: seq<Named<K>>,
                                index: map<K, string>)
    requires Answers(fold, used, requests, records) && |records| == |requests| && Indexes(records, index)
    ensures !Faulty(requests)
  {
    hide CaseFold, FirstFree;
    forall i | 0 <= i < |requests|
      ensures !FaultyAt(requests, i)
    {
      assert records[i].key == requests[i].key;
      forall j | 0 <= j < i
        ensures requests[j].key != requests[i].key
      {
        assert records[j].key == requests[j].key;
      }
    }
  }

  class Section<K(==)> {
    var records: seq<Named<K>>
    var index: map<K, string>

    ghost predicate Valid()
      reads this
    {
      Indexes(records, index)
    }

    constructor ()
      ensures records == [] && index == map[] && Valid()
    {
      records, index := [], map[];
    }

    method Add(key: K, identifier: string)
      requires Valid() && key !in index
      modifies this
      ensures Valid() && records == old(records) + [Named(key, identifier)] && index == old(index)[key := identifier]
    {
      IndexesAppend(records, index, Named(key, identifier));
      records := records + [Named(key, identifier)];
      index := index[key := identifier];
    }

    function Lookup(key: K): (identifier: Option<string>)
      requires Valid()
      reads this
      ensures identifier.Some? ==> Named(key, identifier.value) in records
      ensures identifier.None? ==> forall i :: 0 <= i < |records| ==> records[i].key != key
    {
      if key in index then Some(index[key]) else None
    }

    /** Allocates the requests in order from one allocator, or stops at the first that fails. */
    method AllocateAll(requests: seq<Request<K>>, allocator: NameAllocator) returns (failure: Option<NameError>)
      requires Valid() && records == [] && KeepsDigits(allocator.fold)
      modifies this, allocator
      ensures Valid() && Answers(allocator.fold, old(allocator.used), requests, records)
      ensures allocator.used == old(allocator.used) + Keys(allocator.fold, records)
      ensures failure.None? ==> |records| == |requests|
      ensures failure.Some? ==> |records| < |requests| && Stops(requests, |records|, failure.value)
      ensures failure == Some(Exhausted) && |requests| + |old(allocator.used)| < MAX_SUFFIX ==>
        requests[|records|].identifier == Err(Exhausted)
    {
      hide CaseFold, FirstFree, Taken, Answers, Keys, Indexes;
      ghost var used := allocator.used;
      NothingAnswered(allocator.fold, used, requests);
      NothingIndexed(index);
      for i := 0 to |requests|
        invariant Valid() && |records| == i && index.Keys == set j | 0 <= j < i :: requests[j].key
        invariant Answers(allocator.fold, used, requests, records)
        invariant allocator.used == used + Keys(allocator.fold, records)
      {
        var request := requests[i];
        if request.problem {
          return Some(InvalidName);
        }
        if request.key in index {
          return Some(Repeated);
        }
        if request.identifier.Err? {
          return Some(request.identifier.error);
        }
        ghost var before := records;
        var identifier := allocator.Allocate(request.identifier.value);
        if identifier.Err? {
          UsedKeysAreFew(allocator.fold, used, records);
          return Some(identifier.error);
        }
        Add(request.key, identifier.value);
        ExtendAnswers(allocator.fold, used, requests, before, records[i]);
      }
      return None;
    }
  }

  lemma UsedKeysAreFew<K>(fold: char -> char, used: set<string>, records: seq<Named<K>>)
    ensures |used + Keys(fold, records)| <= |used| + |records|
    decreases |records|
  {
    hide CaseFold;
    if records == [] {
      assert used + Keys(fold, records) == used;
    } else {
      var front := records[..|records| - 1];
      var key := CaseFold(fold, records[|records| - 1].identifier);
      KeysAppend(fold, front, records[|records| - 1]);
      assert records == front + [records[|records| - 1]];
      UsedKeysAreFew(fold, used, front);
      assert used + Keys(fold, records) == (used + Keys(fold, front)) + {key};
    }
  }

  lemma KeysAppend<K>(fold: char -> char, records: seq<Named<K>>, last: Named<K>)
    ensures Keys(fold, records + [last]) == Keys(fold, records) + {CaseFold(fold, last.identifier)}
  {
    hide CaseFold;
    var all := records + [last];
    forall key | key in Keys(fold, records)
      ensures key in Keys(fold, all)
    {
      var i :| 0 <= i < |records| && CaseFold(fold, records[i].identifier) == key;
      assert all[i] == records[i];
    }
    assert all[|records|] == last;
  }

  lemma NothingIndexed<K>(index: map<K, string>)
    requires Indexes([], index)
    ensures index.Keys == {}
  {
  }

  lemma NothingAnswered<K>(fold: char -> char, used: set<string>, requests: seq<Request<K>>)
    ensures Answers(fold, used, requests, []) && used + Keys<K>(fold, []) == used
  {
  }

  lemma ExtendAnswers<K>(fold: char -> char, used: set<string>, requests: seq<Request<K>>, records: seq<Named<K>>,
    last: Named<K>)
    requires Answers(fold, used, requests, records) && |records| < |requests|
    requires var r := requests[|records|];
      && last.key == r.key && !r.problem && r.identifier.Ok?
      && FirstFree(fold, used + Keys(fold, records), r.identifier.value, last.identifier)
    ensures Answers(fold, used, requests, records + [last])
    ensures used + Keys(fold, records + [last]) == used + Keys(fold, records) + {CaseFold(fold, last.identifier)}
  {
    hide CaseFold, FirstFree, Keys;
    KeysAppend(fold, records, last);
    var all := records + [last];
    forall i | 0 <= i < |all|
      ensures all[..i] == records[..i]
    {
    }
    assert records[..|records|] == records;
  }

  // ----- fields, one allocator per owner

  datatype ScopedKey = ScopedKey(owner: ComponentID, path: string)

  function OwnerKeys(fold: char -> char, records: seq<Named<ScopedKey>>, owner: ComponentID): (keys: set<string>)
    ensures forall i :: 0 <= i < |records| && records[i].key.owner == owner ==>
      CaseFold(fold, records[i].identifier) in keys
  {
    set i | 0 <= i < |records| && records[i].key.owner == owner :: CaseFold(fold, records[i].identifier)
  }

  /** Every field is the first candidate free among the earlier fields of its owner. */
  ghost predicate FieldAnswers(fold: char -> char, requests: seq<Request<ScopedKey>>, records: seq<Named<ScopedKey>>) {
    && |records| <= |requests|
    && forall i :: 0 <= i < |records| ==>
         && records[i].key == requests[i].key
         && !requests[i].problem && requests[i].identifier.Ok?
         && FirstFree(fold, OwnerKeys(fold, records[..i], records[i].key.owner), requests[i].identifier.value,
           records[i].identifier)
  }

  ghost predicate FoldDistinctPerOwner(fold: char -> char, records: seq<Named<ScopedKey>>) {
    forall i, j :: 0 <= i < j < |records| && records[i].key.owner == records[j].key.owner ==>
      CaseFold(fold, records[i].identifier) != CaseFold(fold, records[j].identifier)
  }

  lemma FieldAnswersAreDistinct(fold: char -> char, requests: seq<Request<ScopedKey>>, records: seq<Named<ScopedKey>>)
    requires FieldAnswers(fold, requests, records)
    ensures FoldDistinctPerOwner(fold, records)
  {
    hide CaseFold;
    forall i, j | 0 <= i < j < |records| && records[i].key.owner == records[j].key.owner
      ensures CaseFold(fold, records[i].identifier) != CaseFold(fold, records[j].identifier)
    {
      assert records[..j][i] == records[i];
      assert FirstFree(fold, OwnerKeys(fold, records[..j], records[j].key.owner), requests[j].identifier.value,
        records[j].identifier);
    }
  }

  lemma OwnerKeysAppend(fold: char -> char, records: seq<Named<ScopedKey>>, last: Named<ScopedKey>, owner: ComponentID)
    ensures OwnerKeys(fold, records + [last], owner) ==
      OwnerKeys(fold, records, owner) + (if last.key.owner == owner then {CaseFold(fold, last.identifier)} else {})
  {
    hide CaseFold;
    var all := records + [last];
    forall key | key in OwnerKeys(fold, records, owner)
      ensures key in OwnerKeys(fold, all, owner)
    {
      var i :| 0 <= i < |records| && records[i].key.owner == owner && CaseFold(fold, records[i].identifier) == key;
      assert all[i] == records[i];
    }
    assert all[|records|] == last;
  }

  lemma NoFieldsNoKeys(fold: char -> char)
    ensures forall owner :: OwnerKeys(fold, [], owner) == {}
  {
  }

  lemma ExtendFieldAnswers(fold: char -> char, requests: seq<Request<ScopedKey>>, records: seq<Named<ScopedKey>>,
    last: Named<ScopedKey>)
    requires FieldAnswers(fold, requests, records) && |records| < |requests|
    requires var r := requests[|records|];
      && last.key == r.key && !r.problem && r.identifier.Ok?
      && FirstFree(fold, OwnerKeys(fold, records, last.key.owner), r.identifier.value, last.identifier)
    ensures FieldAnswers(fold, requests, records + [last])
  {
    hide CaseFold, FirstFree;
    var all := records + [last];
    forall i | 0 <= i < |all|
      ensures all[..i] == records[..i]
    {
    }
    assert records[..|records|] == records;
  }

  type OwnerAllocators = map<ComponentID, NameAllocator>

  /** Separate allocators that hold exactly the folded field names of their owners. */
  ghost predicate Owned(fold: char -> char, allocators: OwnerAllocators, records: seq<Named<ScopedKey>>)
    reads allocators.Values
  {
    && (forall owner :: owner in allocators ==>
      allocators[owner] in allocators.Values && allocators[owner].fold == fold)
    && (forall o1, o2 :: o1 in allocators && o2 in allocators && allocators[o1] == allocators[o2] ==> o1 == o2)
    && (forall owner :: owner in allocators ==> allocators[owner].used == OwnerKeys(fold, records, owner))
    && (forall owner :: owner !in allocators ==> OwnerKeys(fold, records, owner) == {})
  }

  /** Finds the owner's allocator, creating it on first use. */
  method AllocatorOf(fold: char -> char, before: OwnerAllocators, owner: ComponentID,
    ghost records: seq<Named<ScopedKey>>)
    returns (allocators: OwnerAllocators)
    requires Owned(fold, before, records)
    ensures Owned(fold, allocators, records) && owner in allocators
    ensures forall o :: o in allocators ==> allocators[o] in before.Values || fresh(allocators[o])
  {
    hide OwnerKeys;
    allocators := before;
    if owner !in allocators {
      var created := new NameAllocator(fold);
      allocators := allocators[owner := created];
    }
  }

  /** Allocates a field name from its owner's allocator. */
  method AllocateForOwner(fold: char -> char, before: OwnerAllocators, key: ScopedKey, base: string,
    ghost records: seq<Named<ScopedKey>>)
    returns (allocators: OwnerAllocators, result: Result<string, NameError>)
    requires KeepsDigits(fold) && Owned(fold, before, records)
    modifies before.Values
    ensures forall owner :: owner in allocators ==> allocators[owner] in before.Values || fresh(allocators[owner])
    ensures result.Err? ==> result.error == Exhausted && |OwnerKeys(fold, records, key.owner)| >= MAX_SUFFIX
    ensures result.Ok? ==>
      && FirstFree(fold, OwnerKeys(fold, records, key.owner), base, result.value)
      && Owned(fold, allocators, records + [Named(key, result.value)])
  {
    hide CaseFold, FirstFree, Taken, OwnerKeys;
    var owner := key.owner;
    allocators := AllocatorOf(fold, before, owner, records);
    var allocator := allocators[owner];
    result := allocator.Allocate(base);
    if result.Ok? {
      OwnedOneMore(fold, allocators, records, Named(key, result.value));
    }
  }

  /** The owner's allocator has taken the last name, and the others are as before. */
  lemma OwnedOneMore(fold: char -> char, allocators: OwnerAllocators, records: seq<Named<ScopedKey>>,
                     last: Named<ScopedKey>)
    requires last.key.owner in allocators
    requires forall owner :: owner in allocators ==> allocators[owner].fold == fold
    requires forall o1, o2 :: o1 in allocators && o2 in allocators && allocators[o1] == allocators[o2] ==> o1 == o2
    requires forall owner :: owner in allocators ==>
      allocators[owner].used == OwnerKeys(fold, records, owner) +
        if owner == last.key.owner then {CaseFold(fold, last.identifier)} else {}
    requires forall owner :: owner !in allocators ==> OwnerKeys(fold, records, owner) == {}
    ensures Owned(fold, allocators, records + [last])
  {
    hide CaseFold, OwnerKeys;
    forall owner
      ensures OwnerKeys(fold, records + [last], owner) ==
        OwnerKeys(fold, records, owner) + if owner == last.key.owner then {CaseFold(fold, last.identifier)} else {}
    {
      OwnerKeysAppend(fold, records, last, owner);
    }
  }

  lemma OwnerKeysAreFew(fold: char -> char, records: seq<Named<ScopedKey>>, owner: ComponentID)
    ensures |OwnerKeys(fold, records, owner)| <= |records|
  {
    hide CaseFold;
    var own, all := OwnerKeys(fold, records, owner), Keys(fold, records);
    UsedKeysAreFew(fold, {}, records);
    assert {} + all == all;
    assert own <= all && own + (all - own) == all;
  }

  /** Allocates local-particle fields; each owner has its own allocator. */
  method AllocateFields(fold: char -> char, section: Section<ScopedKey>, requests: seq<Request<ScopedKey>>)
    returns (failure: Option<NameError>)
    requires section.Valid() && section.records == [] && KeepsDigits(fold)
    modifies section
    ensures section.Valid() && FieldAnswers(fold, requests, section.records)
    ensures failure.None? ==> |section.records| == |requests|
    ensures failure.Some? ==> |section.records| < |requests| && Stops(requests, |section.records|, failure.value)
    ensures failure == Some(Exhausted) && |requests| < MAX_SUFFIX ==>
      requests[|section.records|].identifier == Err(Exhausted)
  {
    hide CaseFold, FirstFree, Taken, OwnerKeys, FieldAnswers;
    var allocators: OwnerAllocators := map[];
    NoFieldsNoKeys(fold);
    NoFieldsAnswer(fold, requests);
    for i := 0 to |requests|
      invariant section.Valid() && |section.records| == i && section.index.Keys == set j | 0 <= j < i :: requests[j].key
      invariant FieldAnswers(fold, requests, section.records)
      invariant forall owner :: owner in allocators ==> fresh(allocators[owner])
      invariant Owned(fold, allocators, section.records)
    {
      hide Owned;
      var request := requests[i];
      if request.problem {
        return Some(InvalidName);
      }
      if request.key in section.index {
        return Some(Repeated);
      }
      if request.identifier.Err? {
        return Some(request.identifier.error);
      }
      ghost var before := section.records;
      var identifier;
      allocators, identifier := AllocateForOwner(fold, allocators, request.key, request.identifier.value, before);
      if identifier.Err? {
        OwnerKeysAreFew(fold, before, request.key.owner);
        return Some(identifier.error);
      }
      section.Add(request.key, identifier.value);
      ExtendFieldAnswers(fold, requests, before, Named(request.key, identifier.value));
    }
    return None;
  }

  lemma NoFieldsAnswer(fold: char -> char, requests: seq<Request<ScopedKey>>)
    ensures FieldAnswers(fold, requests, [])
  {
  }

  // ----- the whole table

  datatype Table = Table(
    packageName: string,
    components: seq<Named<ComponentID>>, componentByID: map<ComponentID, string>,
    fields: seq<Named<ScopedKey>>, fieldByKey: map<ScopedKey, string>,
    variants: seq<Named<ScopedKey>>, variantByKey: map<ScopedKey, string>,
    imports: seq<Named<string>>, importByID: map<string, string>)

  ghost predicate Indexed(t: Table) {
    && Indexes(t.components, t.componentByID) && Indexes(t.fields, t.fieldByKey)
    && Indexes(t.variants, t.variantByKey) && Indexes(t.imports, t.importByID)
  }

  /** A request for a name at an owner and a path below it. */
  datatype ScopedRequest = ScopedRequest(owner: ComponentID, path: seq<nat>, problem: bool,
    identifier: Result<string, NameError>)

  function KeyAt(owner: ComponentID, path: seq<nat>): ScopedKey {
    ScopedKey(owner, LexicalPathKey(path))
  }

  /** The requests under the keys that their names are recorded with. */
  function Keyed(requests: seq<ScopedRequest>): (keyed: seq<Request<ScopedKey>>)
    ensures |keyed| == |requests|
  {
    seq(|requests|, i requires 0 <= i < |requests| =>
      Request(KeyAt(requests[i].owner, requests[i].path), requests[i].problem, requests[i].identifier))
  }

  datatype Input = Input(
    packageName: Result<string, NameError>,
    components: seq<Request<ComponentID>>,
    fields: seq<ScopedRequest>,
    variants: seq<ScopedRequest>,
    imports: seq<Request<string>>)

  /** Identifiers of components, variants and imports share one scope; fields have one per owner. */
  ghost predicate CollisionFree(fold: char -> char, t: Table) {
    && FoldDistinct(fold, {}, t.components)
    && FoldDistinct(fold, Keys(fold, t.components), t.variants)
    && FoldDistinct(fold, Keys(fold, t.components) + Keys(fold, t.variants), t.imports)
    && FoldDistinctPerOwner(fold, t.fields)
  }

  /** Every record is the first free candidate for its request, in request order. */
  ghost predicate AnswersInput(fold: char -> char, input: Input, t: Table) {
    && |t.components| == |input.components| && Answers(fold, {}, input.components, t.components)
    && |t.fields| == |input.fields| && FieldAnswers(fold, Keyed(input.fields), t.fields)
    && |t.variants| == |input.variants| && Answers(fold, Keys(fold, t.components), Keyed(input.variants), t.variants)
    && |t.imports| == |input.imports|
    && Answers(fold, Keys(fold, t.components) + Keys(fold, t.variants), input.imports, t.imports)
  }

  ghost predicate FaultyInput(input: Input) {
    || input.packageName.Err? || Faulty(input.components) || Faulty(Keyed(input.fields))
    || Faulty(Keyed(input.variants)) || Faulty(input.imports)
  }

  lemma FieldsWithoutFault(fold: char -> char, requests: seq<Request<ScopedKey>>, records: seq<Named<ScopedKey>>,
                           index: map<ScopedKey, string>)
    requires FieldAnswers(fold, requests, records) && |records| == |requests| && Indexes(records, index)
    ensures !Faulty(requests)
  {
    hide CaseFold, FirstFree, OwnerKeys;
    forall i | 0 <= i < |requests|
      ensures !FaultyAt(requests, i)
    {
      assert records[i].key == requests[i].key;
      forall j | 0 <= j < i
        ensures requests[j].key != requests[i].key
      {
        assert records[j].key == requests[j].key;
      }
    }
  }

  lemma BuiltWithoutFault(fold: char -> char, input: Input, t: Table)
    requires AnswersInput(fold, input, t) && Indexed(t)
    ensures !Faulty(input.components) && !Faulty(input.imports)
    ensures !Faulty(Keyed(input.fields)) && !Faulty(Keyed(input.variants))
  {
    hide Answers, FieldAnswers, Indexes, Keys, Faulty;
    AnsweredWithoutFault(fold, {}, input.components, t.components, t.componentByID);
    FieldsWithoutFault(fold, Keyed(input.fields), t.fields, t.fieldByKey);
    AnsweredWithoutFault(fold, Keys(fold, t.components), Keyed(input.variants), t.variants, t.variantByKey);
    AnsweredWithoutFault(fold, Keys(fold, t.components) + Keys(fold, t.variants), input.imports, t.imports,
      t.importByID);
  }

  /** A built table answers every request, has no colliding names and indexes its ordered records. */
  method BuildCodegenNaming(fold: char -> char, input: Input) returns (result: Result<Table, NameError>)
    requires KeepsDigits(fold)
    ensures result.Ok? ==>
      AnswersInput(fold, input, result.value) && CollisionFree(fold, result.value) && Indexed(result.value)
    ensures result.Ok? ==> MadeFor(result.value.fields, input.fields) && MadeFor(result.value.variants, input.variants)
    ensures result.Ok? ==> !FaultyInput(input)
    ensures result.Err? && |input.components| + |input.fields| + |input.variants| + |input.imports| < MAX_SUFFIX ==>
      FaultyInput(input)
  {
    hide CaseFold, FirstFree, Indexes, Answers, FieldAnswers, FoldDistinct, FoldDistinctPerOwner, Keys, Stops, Faulty,
      FaultyAt, Keyed, MadeFor;
    ghost var few := |input.components| + |input.fields| + |input.variants| + |input.imports| < MAX_SUFFIX;
    if input.packageName.Err? {
      return Err(input.packageName.error);
    }
    var allocator := new NameAllocator(fold);
    var components := new Section<ComponentID>();
    var failure := components.AllocateAll(input.components, allocator);
    if failure.Some? {
      if few { StoppedByFault(input.components, |components.records|, failure.value); }
      return Err(failure.value);
    }
    AnswersAreDistinct(fold, {}, input.components, components.records);
    ghost var componentKeys := allocator.used;
    assert componentKeys == Keys(fold, components.records);
    var fields := new Section<ScopedKey>();
    failure := AllocateFields(fold, fields, Keyed(input.fields));
    if failure.Some? {
      if few { StoppedByFault(Keyed(input.fields), |fields.records|, failure.value); }
      return Err(failure.value);
    }
    FieldAnswersAreDistinct(fold, Keyed(input.fields), fields.records);
    var variants := new Section<ScopedKey>();
    UsedKeysAreFew(fold, {}, components.records);
    failure := variants.AllocateAll(Keyed(input.variants), allocator);
    if failure.Some? {
      if few { StoppedByFault(Keyed(input.variants), |variants.records|, failure.value); }
      return Err(failure.value);
    }
    AnswersAreDistinct(fold, componentKeys, Keyed(input.variants), variants.records);
    ghost var variantKeys := allocator.used;
    var imports := new Section<string>();
    UsedKeysAreFew(fold, componentKeys, variants.records);
    failure := imports.AllocateAll(input.imports, allocator);
    if failure.Some? {
      if few { StoppedByFault(input.imports, |imports.records|, failure.value); }
      return Err(failure.value);
    }
    AnswersAreDistinct(fold, variantKeys, input.imports, imports.records);
    var table := Table(input.packageName.value, components.records, components.index, fields.records, fields.index,
                       variants.records, variants.index, imports.records, imports.index);
    BuiltWithoutFault(fold, input, table);
    BuiltForInput(fold, input, table);
    return Ok(table);
  }

  // ----- cloning rebuilds the same indexes

  /** Rebuilds an index from the ordered records, later records last. */
  method RebuildIndex<K(==)>(records: seq<Named<K>>) returns (index: map<K, string>)
    requires forall i, j :: 0 <= i < j < |records| ==> records[i].key != records[j].key
    ensures Indexes(records, index)
  {
    index := map[];
    for i := 0 to |records|
      invariant Indexes(records[..i], index)
    {
      assert forall k :: 0 <= k < i ==> records[..i][k].key != records[i].key;
      IndexesAppend(records[..i], index, records[i]);
      index := index[records[i].key := records[i].identifier];
      assert records[..i + 1] == records[..i] + [records[i]];
    }
    assert records[..|records|] == records;
  }

  /** The records determine the index. */
  lemma IndexIsUnique<K>(records: seq<Named<K>>, a: map<K, string>, b: map<K, string>)
    requires Indexes(records, a) && Indexes(records, b)
    ensures a == b
  {
    forall key
      ensures key in a <==> key in b
      ensures key in a ==> a[key] == b[key]
    {
      if key in a {
        var i :| 0 <= i < |records| && records[i].key == key;
      }
      if key in b {
        var i :| 0 <= i < |records| && records[i].key == key;
      }
    }
  }

  method Clone(t: Table) returns (clone: Table)
    requires Indexed(t)
    ensures clone == t
  {
    hide Indexes;
    DistinctKeys(t.components, t.componentByID);
    DistinctKeys(t.fields, t.fieldByKey);
    DistinctKeys(t.variants, t.variantByKey);
    DistinctKeys(t.imports, t.importByID);
    var componentByID := RebuildIndex(t.components);
    var fieldByKey := RebuildIndex(t.fields);
    var variantByKey := RebuildIndex(t.variants);
    var importByID := RebuildIndex(t.imports);
    IndexIsUnique(t.components, componentByID, t.componentByID);
    IndexIsUnique(t.fields, fieldByKey, t.fieldByKey);
    IndexIsUnique(t.variants, variantByKey, t.variantByKey);
    IndexIsUnique(t.imports, importByID, t.importByID);
    return Table(t.packageName, t.components, componentByID, t.fields, fieldByKey, t.variants, variantByKey, t.imports,
      importByID);
  }

  lemma DistinctKeys<K>(records: seq<Named<K>>, index: map<K, string>)
    requires Indexes(records, index)
    ensures forall i, j :: 0 <= i < j < |records| ==> records[i].key != records[j].key
  {
  }

  // ----- looking up what was built

  /** Every record was made for the request at its position. */
  ghost predicate MadeFor(records: seq<Named<ScopedKey>>, requests: seq<ScopedRequest>) {
    && |records| == |requests|
    && forall i :: 0 <= i < |records| ==> records[i].key == KeyAt(requests[i].owner, requests[i].path)
  }

  lemma BuiltForInput(fold: char -> char, input: Input, t: Table)
    requires AnswersInput(fold, input, t)
    ensures MadeFor(t.fields, input.fields) && MadeFor(t.variants, input.variants)
  {
    hide FirstFree, KeyAt, CaseFold;
  }

  function FieldName(t: Table, owner: ComponentID, path: seq<nat>): Option<string> {
    var key := KeyAt(owner, path);
    if key in t.fieldByKey then Some(t.fieldByKey[key]) else None
  }

  function VariantName(t: Table, owner: ComponentID, path: seq<nat>): Option<string> {
    var key := KeyAt(owner, path);
    if key in t.variantByKey then Some(t.variantByKey[key]) else None
  }

  /** A request of the input for this owner and path was answered with this identifier. */
  ghost predicate NamedAs(records: seq<Named<ScopedKey>>, requests: seq<ScopedRequest>, owner: ComponentID,
                          path: seq<nat>, identifier: string)
    requires |records| == |requests|
  {
    exists i :: 0 <= i < |requests| && requests[i].owner == owner && requests[i].path == path &&
      records[i].identifier == identifier
  }

  /** The key of an owner and a path is indexed exactly when a request for them was answered. */
  lemma LookupIsExact(records: seq<Named<ScopedKey>>, index: map<ScopedKey, string>, requests: seq<ScopedRequest>,
                      owner: ComponentID, path: seq<nat>, identifier: string)
    requires Indexes(records, index) && MadeFor(records, requests)
    ensures KeyAt(owner, path) in index && index[KeyAt(owner, path)] == identifier <==>
      NamedAs(records, requests, owner, path, identifier)
  {
    hide LexicalPathKey;
    var key := KeyAt(owner, path);
    if key in index && index[key] == identifier {
      var i :| 0 <= i < |records| && records[i].key == key;
      PathKeysAreInjective(path, requests[i].path);
    }
    forall i | 0 <= i < |requests| && requests[i].owner == owner && requests[i].path == path &&
               records[i].identifier == identifier
      ensures key in index && index[key] == identifier
    {
      assert records[i].key == key;
    }
  }

  /** A built table finds a name exactly where the input asked for one: the name that answered the request. */
  lemma LookupsAreExact(fold: char -> char, input: Input, t: Table, owner: ComponentID, path: seq<nat>,
                        identifier: string)
    requires AnswersInput(fold, input, t) && Indexed(t)
    ensures FieldName(t, owner, path) == Some(identifier) <==>
      NamedAs(t.fields, input.fields, owner, path, identifier)
    ensures VariantName(t, owner, path) == Some(identifier) <==>
      NamedAs(t.variants, input.variants, owner, path, identifier)
  {
    BuiltForInput(fold, input, t);
    hide AnswersInput, Indexes, MadeFor, NamedAs, KeyAt;
    LookupIsExact(t.fields, t.fieldByKey, input.fields, owner, path, identifier);
    LookupIsExact(t.variants, t.variantByKey, input.variants, owner, path, identifier);
  }
}
