// The lottery-number engine (src/lib/generator.ts): an unbiased rejection
// sampler over 32-bit words, the per-game draw with duplicate rejection and
// ascending sort, and the batch of games.
//
// The platform's cryptographic word source is a parameter: every operation
// takes the words it may consume, in order, and returns the words it left
// unread. A finite supply of words can run out, which the source's unbounded
// retry loops never do; that outcome is `EntropyExhausted`.

module Generator {
  import opened Lotteries

  /** Largest value of one 32-bit entropy word (`maxUint32` in the source). */
  const WordMax: int := 0xffff_ffff

  type Word = x: int | 0 <= x <= WordMax

  datatype Option<T> = None | Some(value: T)

  datatype GenError =
    | PickCountOutOfRange  // requested count outside `rules.dozens`
    | InsufficientRange    // unique values requested, too few values in `rules.range`
    | InvalidGamesCount    // batch size not positive
    | InvalidArrayLength   // batch size too large for an array (2^32 or more)
    | EntropyExhausted     // the supplied words ran out before the draw finished

  datatype Result<T> = Ok(value: T) | Err(error: GenError)

  /** One accepted draw: the value and the words left after it. */
  datatype Drawn = Drawn(value: int, rest: seq<Word>)

  /** The values of a finished draw loop and the words left after it. */
  datatype Draws = Draws(nums: seq<int>, rest: seq<Word>)

  /** The outcome of a generation call and the words left after it. */
  datatype Generated<T> = Generated(result: Result<T>, rest: seq<Word>)

  // ---------------------------------------------------------------------
  // Sequences of picks
  // ---------------------------------------------------------------------

  predicate Distinct(s: seq<int>) {
    forall i, j :: 0 <= i < j < |s| ==> s[i] != s[j]
  }

  predicate Ascending(s: seq<int>) {
    forall i, j :: 0 <= i < j < |s| ==> s[i] <= s[j]
  }

  /** The set of values a sequence holds. */
  function Elems(s: seq<int>): set<int> {
    set x | x in s
  }

  predicate InRange(s: seq<int>, min: int, max: int) {
    forall i :: 0 <= i < |s| ==> min <= s[i] <= max
  }

  // ---------------------------------------------------------------------
  // The rejection sampler (cryptoIntInclusive)
  // ---------------------------------------------------------------------

  /** The sampler's implicit demands: `max - min + 1` must be a positive
      count that a word can cover (otherwise the source returns NaN or
      never leaves its loop). */
  predicate SpreadFits(min: int, max: int) {
    min <= max && max - min + 1 <= WordMax
  }

  /** `limit`: a word is accepted when it is below this bound. */
  function Limit(range: int): int
    requires 1 <= range <= WordMax
  {
    (WordMax / range) * range
  }

  /** `limit` is the largest multiple of `range` not above `WordMax`, and at
      least one full block of `range` words, so some word is always
      accepted. */
  lemma LimitIsLargestMultiple(range: int)
    requires 1 <= range <= WordMax
    ensures Limit(range) % range == 0
    ensures range <= Limit(range) <= WordMax
    ensures WordMax - range < Limit(range)
  {
    var q := WordMax / range;
    DivMod(WordMax, range);
    DivModUnique(q * range, range, q, 0);
    MulAtLeast(q, range);
  }

  /** What the sampler returns on the words `words`: the first word below
      `Limit` is reduced modulo the spread and shifted by `min`. The value is
      within `[min, max]` and at least one word is consumed. */
  function Sample(min: int, max: int, words: seq<Word>): (r: Option<Drawn>)
    requires SpreadFits(min, max)
    ensures r.Some? ==>
      min <= r.value.value <= max &&
      |r.value.rest| < |words| &&
      r.value.rest == words[|words| - |r.value.rest|..]
    decreases |words|
  {
    if |words| == 0 then None
    else if words[0] >= Limit(max - min + 1) then
      var r := Sample(min, max, words[1..]);
      assert r.Some? ==> words[1..][|words| - 1 - |r.value.rest|..] == words[|words| - |r.value.rest|..];
      r
    else Some(Drawn(min + words[0] % (max - min + 1), words[1..]))
  }

  /** The sampler rejects exactly the words at or above `Limit`: it returns
      nothing iff every word is rejected, and otherwise returns the value of
      the first accepted word, every earlier word being rejected. */
  lemma {:induction false} SampleIsFirstAccepted(min: int, max: int, words: seq<Word>)
    requires SpreadFits(min, max)
    ensures Sample(min, max, words).None? <==>
      forall i :: 0 <= i < |words| ==> words[i] >= Limit(max - min + 1)
    ensures Sample(min, max, words).Some? ==>
      var k := |words| - |Sample(min, max, words).value.rest| - 1;
      words[k] < Limit(max - min + 1) &&
      (forall i :: 0 <= i < k ==> words[i] >= Limit(max - min + 1)) &&
      Sample(min, max, words).value.value == min + words[k] % (max - min + 1)
    decreases |words|
  {
    var limit := Limit(max - min + 1);
    if |words| > 0 && words[0] >= limit {
      var tail := words[1..];
      SampleIsFirstAccepted(min, max, tail);
      assert Sample(min, max, words) == Sample(min, max, tail);
      forall i | 1 <= i < |words|
        ensures words[i] == tail[i - 1]
      {
      }
    }
  }

  /** `cryptoIntInclusive`: draw words until one is below `limit`. */
  method CryptoIntInclusive(min: int, max: int, words: seq<Word>) returns (r: Option<Drawn>)
    requires SpreadFits(min, max)
    ensures r == Sample(min, max, words)
    ensures r.Some? ==> min <= r.value.value <= max && |r.value.rest| < |words|
  {
    var range := max - min + 1;
    var limit := Limit(range);
    var i := 0;
    // the source's do-while: draw, and draw again while the word is rejected
    while i < |words| && words[i] >= limit
      invariant 0 <= i <= |words|
      invariant Sample(min, max, words[i..]) == Sample(min, max, words)
    {
      assert words[i..][1..] == words[i + 1..];
      i := i + 1;
    }
    if i == |words| {
      return None;
    }
    var x := words[i];
    assert words[i..][1..] == words[i + 1..];
    r := Some(Drawn(min + x % range, words[i + 1..]));
  }

  /** The words in `[0, bound)` that the sampler maps to residue `r`. */
  function Preimages(range: int, r: int, bound: int): set<int>
    requires range >= 1
  {
    set x | 0 <= x < bound && x % range == r
  }

  /** No modulo bias: every residue of `range` has exactly `Limit / range`
      accepted words mapped onto it, so a uniform accepted word gives a
      uniform value in `[min, max]`. */
  lemma NoModuloBias(range: int, r: int)
    requires 1 <= range <= WordMax && 0 <= r < range
    ensures |Preimages(range, r, Limit(range))| == Limit(range) / range
  {
    var q := WordMax / range;
    DivModUnique(q * range, range, q, 0);
    PreimageCount(range, r, q);
  }

  /** The words of `[0, limit)` that the sampler maps to `v`. */
  function Hits(min: int, max: int, v: int): set<int>
    requires SpreadFits(min, max)
  {
    var range := max - min + 1;
    set x | 0 <= x < Limit(range) && min + x % range == v
  }

  /** Every value of `[min, max]` is the image of exactly `limit / range`
      accepted words: the draw is uniform over the range. */
  lemma UniformValues(min: int, max: int, v: int)
    requires SpreadFits(min, max) && min <= v <= max
    ensures |Hits(min, max, v)| == Limit(max - min + 1) / (max - min + 1)
  {
    var range := max - min + 1;
    assert Hits(min, max, v) == Preimages(range, v - min, Limit(range));
    NoModuloBias(range, v - min);
  }

  lemma {:induction false} PreimageCount(range: int, r: int, q: nat)
    requires 1 <= range && 0 <= r < range
    ensures |Preimages(range, r, q * range)| == q
  {
    if q == 0 {
      assert Preimages(range, r, 0) == {};
    } else {
      PreimageCount(range, r, q - 1);
      var lo := (q - 1) * range;
      assert q * range == lo + range;
      var below := Preimages(range, r, lo);
      DivModUnique(lo + r, range, q - 1, 0 + r);
      assert lo + r !in below;
      forall x | x in Preimages(range, r, q * range) && x !in below
        ensures x == lo + r
      {
        DivMod(x, range);
        BlockIndex(x, range, q - 1);
      }
      assert Preimages(range, r, q * range) == below + {lo + r};
    }
  }

  lemma DivMod(x: int, range: int)
    requires range >= 1
    ensures x == (x / range) * range + x % range && 0 <= x % range < range
  {
  }

  /** Euclidean division is unique. */
  lemma DivModUnique(x: int, range: int, q: int, r: int)
    requires range >= 1 && 0 <= r < range && x == q * range + r
    ensures x / range == q && x % range == r
  {
    var d, m := x / range, x % range;
    DivMod(x, range);
    assert (q - d) * range == m - r;
    if q - d >= 1 {
      MulAtLeast(q - d, range);
    } else if d - q >= 1 {
      MulAtLeast(d - q, range);
    }
  }

  /** A word in the block `[q * range, (q + 1) * range)` has quotient `q`. */
  lemma BlockIndex(x: int, range: int, q: int)
    requires range >= 1 && q * range <= x < q * range + range
    ensures x / range == q && x == q * range + x % range
  {
    DivMod(x, range);
    DivModUnique(x, range, q, x - q * range);
  }

  lemma MulAtLeast(a: int, b: int)
    requires a >= 1 && b >= 1
    ensures a * b >= b
  {
    assert a * b == (a - 1) * b + b;
  }

  // ---------------------------------------------------------------------
  // One game (generateGame)
  // ---------------------------------------------------------------------

  /** The first check of `generateGame`: the count is within `rules.dozens`. */
  predicate DozensAllowed(rules: LotteryRules, dozens: int) {
    rules.dozens.min <= dozens <= rules.dozens.max
  }

  /** The second check: unique values are requested only from a range that
      holds at least `dozens` of them. */
  predicate UniqueFeasible(rules: LotteryRules, dozens: int) {
    !rules.uniqueNumbers || dozens <= Available(rules.range)
  }

  /** Length of the game for a requested count; a count at or below zero
      (which only malformed rules allow) gives the empty game. */
  function GameLength(dozens: int): nat {
    if dozens > 0 then dozens else 0
  }

  /** What a successful `generateGame(rules, dozens)` promises of its game. */
  predicate IsGame(rules: LotteryRules, dozens: int, game: seq<int>) {
    |game| == GameLength(dozens) &&
    InRange(game, rules.range.min, rules.range.max) &&
    (rules.uniqueNumbers ==> Distinct(game)) &&
    (rules.sortAscending ==> Ascending(game))
  }

  /** The sampler is reached only when both checks pass and at least one
      value is wanted; only then must its spread be one it can handle. */
  predicate DrawDefined(rules: LotteryRules, dozens: int) {
    DozensAllowed(rules, dozens) && UniqueFeasible(rules, dozens) && dozens > 0 ==>
      SpreadFits(rules.range.min, rules.range.max)
  }

  /** The draw loop of `generateGame`, before sorting: keep sampling until
      `dozens` values are held, skipping a value already held when `unique`.
      Extends `nums` to `dozens` values within `[min, max]`, keeps it free of
      repeats when `unique`, and consumes a suffix-preserving prefix of the
      words. */
  function DrawLoop(min: int, max: int, unique: bool, dozens: int, nums: seq<int>, words: seq<Word>)
    : (r: Option<Draws>)
    requires |nums| < dozens ==> SpreadFits(min, max)
    ensures r.Some? ==> |r.value.nums| == (if |nums| < dozens then dozens else |nums|)
    ensures r.Some? ==> nums <= r.value.nums
    ensures r.Some? ==> InRange(nums, min, max) ==> InRange(r.value.nums, min, max)
    ensures r.Some? ==> unique && Distinct(nums) ==> Distinct(r.value.nums)
    ensures r.Some? ==> |r.value.rest| <= |words|
    decreases |words|
  {
    if |nums| >= dozens then Some(Draws(nums, words))
    else
      match Sample(min, max, words)
      case None => None
      case Some(d) =>
        if unique && d.value in nums then
          DrawLoop(min, max, unique, dozens, nums, d.rest)
        else
          Append(nums, d.value, min, max);
          DrawLoop(min, max, unique, dozens, nums + [d.value], d.rest)
  }

  /** The draw loop reads a prefix of the words and leaves the rest: what
      it returns is a suffix of what it was given. */
  lemma {:induction false} DrawLoopSuffix(min: int, max: int, unique: bool, dozens: int,
                                          nums: seq<int>, words: seq<Word>)
    requires |nums| < dozens ==> SpreadFits(min, max)
    ensures var r := DrawLoop(min, max, unique, dozens, nums, words);
      r.Some? ==> r.value.rest == words[|words| - |r.value.rest|..]
    decreases |words|
  {
    if |nums| < dozens {
      match Sample(min, max, words)
      case None =>
      case Some(d) =>
        var next := if unique && d.value in nums then nums else nums + [d.value];
        assert DrawLoop(min, max, unique, dozens, nums, words)
            == DrawLoop(min, max, unique, dozens, next, d.rest);
        DrawLoopSuffix(min, max, unique, dozens, next, d.rest);
    }
  }

  /** Appending a new value within `[min, max]` keeps a sequence within the
      range and free of repeats. */
  lemma Append(s: seq<int>, v: int, min: int, max: int)
    requires min <= v <= max
    ensures InRange(s, min, max) ==> InRange(s + [v], min, max)
    ensures Distinct(s) && v !in s ==> Distinct(s + [v])
  {
  }

  /** `x` inserted into `s` before the first element not below it. */
  function Insert(x: int, s: seq<int>): (r: seq<int>)
    ensures multiset(r) == multiset(s) + multiset{x}
  {
    if s == [] then [x]
    else if x <= s[0] then [x] + s
    else
      assert s == [s[0]] + s[1..];
      [s[0]] + Insert(x, s[1..])
  }

  /** Inserting into an ascending sequence keeps it ascending. */
  lemma {:induction false} InsertAscending(x: int, s: seq<int>)
    requires Ascending(s)
    ensures Ascending(Insert(x, s))
  {
    if s != [] && x > s[0] {
      var tail := Insert(x, s[1..]);
      InsertAscending(x, s[1..]);
      forall k | 0 <= k < |tail|
        ensures s[0] <= tail[k]
      {
        assert tail[k] in multiset(s[1..]) + multiset{x};
        if tail[k] != x {
          var m :| 0 <= m < |s[1..]| && s[1..][m] == tail[k];
          assert s[m + 1] == tail[k];
        }
      }
      assert Insert(x, s) == [s[0]] + tail;
    }
  }

  /** The ascending rearrangement of `s`: the outcome of a numeric sort. */
  function SortSeq(s: seq<int>): (r: seq<int>)
    ensures Ascending(r) && multiset(r) == multiset(s)
  {
    if s == [] then []
    else
      assert s == [s[0]] + s[1..];
      InsertAscending(s[0], SortSeq(s[1..]));
      Insert(s[0], SortSeq(s[1..]))
  }

  /** Two non-empty ascending sequences with the same elements start alike. */
  lemma SameHead(a: seq<int>, b: seq<int>)
    requires Ascending(a) && Ascending(b) && multiset(a) == multiset(b)
    requires a != [] && b != []
    ensures a[0] == b[0]
  {
    assert a[0] in multiset(b) && b[0] in multiset(a);
    var j :| 0 <= j < |b| && b[j] == a[0];
    var i :| 0 <= i < |a| && a[i] == b[0];
  }

  /** The elements of a non-empty sequence after its head. */
  lemma TailMultiset(a: seq<int>)
    requires a != []
    ensures multiset(a[1..]) == multiset(a) - multiset{a[0]}
  {
    assert a == [a[0]] + a[1..];
  }

  /** An ascending sequence is determined by its multiset: any two sorts of
      the same values agree. */
  lemma {:induction false} AscendingPermutationUnique(a: seq<int>, b: seq<int>)
    requires Ascending(a) && Ascending(b) && multiset(a) == multiset(b)
    ensures a == b
    decreases |a|
  {
    assert |a| == |multiset(a)| == |multiset(b)| == |b|;
    if a != [] {
      SameHead(a, b);
      TailMultiset(a);
      TailMultiset(b);
      AscendingPermutationUnique(a[1..], b[1..]);
      assert a == [a[0]] + a[1..] && b == [b[0]] + b[1..];
    }
  }

  /** What `generateGame(rules, dozens)` does on the words `words`: the count
      check, then the uniqueness check, both before any word is read; then
      the draw loop, sorted when the rules ask for it. A successful game
      meets `IsGame`; a failed check leaves every word unread. */
  function Game(rules: LotteryRules, dozens: int, words: seq<Word>): (g: Generated<seq<int>>)
    requires DrawDefined(rules, dozens)
    ensures g.result.Ok? ==> IsGame(rules, dozens, g.result.value)
    ensures g.result.Err? && g.result.error != EntropyExhausted ==> g.rest == words
    ensures g.result.Err? ==> g.result.error != InvalidGamesCount && g.result.error != InvalidArrayLength
    ensures g.result == Err(EntropyExhausted) ==> g.rest == []
  {
    if !DozensAllowed(rules, dozens) then Generated(Err(PickCountOutOfRange), words)
    else if !UniqueFeasible(rules, dozens) then Generated(Err(InsufficientRange), words)
    else
      match DrawLoop(rules.range.min, rules.range.max, rules.uniqueNumbers, dozens, [], words)
      case None => Generated(Err(EntropyExhausted), [])
      case Some(d) =>
        var min, max := rules.range.min, rules.range.max;
        if rules.sortAscending then
          InRangePermutation(d.nums, SortSeq(d.nums), min, max);
          if rules.uniqueNumbers then
            DistinctPermutation(d.nums, SortSeq(d.nums));
            Generated(Ok(SortSeq(d.nums)), d.rest)
          else
            Generated(Ok(SortSeq(d.nums)), d.rest)
        else
          Generated(Ok(d.nums), d.rest)
  }

  /** `generateGame`: validate the count, check that uniqueness is feasible,
      draw, then sort ascending when the rules ask for it. Both checks fail
      before any word is consumed, the count check first. */
  method GenerateGame(rules: LotteryRules, dozens: int, words: seq<Word>)
    returns (r: Result<seq<int>>, rest: seq<Word>)
    requires DrawDefined(rules, dozens)
    ensures Generated(r, rest) == Game(rules, dozens, words)
    ensures r == Err(PickCountOutOfRange) <==> !DozensAllowed(rules, dozens)
    ensures r == Err(InsufficientRange) <==>
      DozensAllowed(rules, dozens) && !UniqueFeasible(rules, dozens)
    ensures r == Err(EntropyExhausted) <==>
      DozensAllowed(rules, dozens) && UniqueFeasible(rules, dozens) &&
      DrawLoop(rules.range.min, rules.range.max, rules.uniqueNumbers, dozens, [], words).None?
    ensures r.Err? ==> r.error != InvalidGamesCount
    ensures r.Err? && r.error != EntropyExhausted ==> rest == words
    ensures r == Err(EntropyExhausted) ==> rest == []
    ensures r.Ok? ==>
      var d := DrawLoop(rules.range.min, rules.range.max, rules.uniqueNumbers, dozens, [], words);
      d.Some? && rest == d.value.rest &&
      multiset(r.value) == multiset(d.value.nums) &&
      (!rules.sortAscending ==> r.value == d.value.nums)
    ensures r.Ok? ==> IsGame(rules, dozens, r.value)
    ensures r.Ok? && dozens <= 0 ==> r.value == [] && rest == words
  {
    var min := rules.range.min;
    var max := rules.range.max;
    var available := max - min + 1;
    if dozens < rules.dozens.min || dozens > rules.dozens.max {
      return Err(PickCountOutOfRange), words;
    }
    if rules.uniqueNumbers && dozens > available {
      return Err(InsufficientRange), words;
    }
    var nums := new int[GameLength(dozens)];
    var drew;
    drew, rest := DrawNumbers(nums, min, max, rules.uniqueNumbers, dozens, words);
    if !drew {
      return Err(EntropyExhausted), rest;
    }
    ghost var drawn := nums[..];
    if rules.sortAscending {
      SortAscending(nums);
      AscendingPermutationUnique(nums[..], SortSeq(drawn));
      InRangePermutation(drawn, nums[..], min, max);
      if rules.uniqueNumbers {
        DistinctPermutation(drawn, nums[..]);
      }
    }
    r := Ok(nums[..]);
  }

  /** The draw loop of `generateGame`: fill `nums` with samples, skipping a
      sample already in `used` when `unique`. Reports whether the words
      sufficed; if so, `nums` holds exactly what `DrawLoop` draws. */
  method DrawNumbers(nums: array<int>, min: int, max: int, unique: bool, dozens: int, words: seq<Word>)
    returns (drew: bool, rest: seq<Word>)
    requires dozens > 0 ==> SpreadFits(min, max)
    requires nums.Length == GameLength(dozens)
    modifies nums
    ensures drew <==> DrawLoop(min, max, unique, dozens, [], words).Some?
    ensures drew ==> DrawLoop(min, max, unique, dozens, [], words) == Some(Draws(nums[..], rest))
    ensures drew ==> InRange(nums[..], min, max) && (unique ==> Distinct(nums[..]))
    ensures !drew ==> rest == []
  {
    var len := 0;
    var used: set<int> := {};
    rest := words;
    while len < dozens
      invariant 0 <= len <= nums.Length
      invariant unique ==> used == Elems(nums[..len])
      invariant unique ==> Distinct(nums[..len])
      invariant InRange(nums[..len], min, max)
      invariant DrawLoop(min, max, unique, dozens, nums[..len], rest)
             == DrawLoop(min, max, unique, dozens, [], words)
      decreases |rest|
    {
      ghost var held, before := nums[..len], rest;
      var d := CryptoIntInclusive(min, max, rest);
      if d.None? {
        assert DrawLoop(min, max, unique, dozens, held, before).None?;
        return false, [];
      }
      var n := d.value.value;
      rest := d.value.rest;
      if unique {
        assert n in used <==> n in held;
        if n in used {
          assert DrawLoop(min, max, unique, dozens, held, before)
              == DrawLoop(min, max, unique, dozens, held, rest);
          continue;
        }
        used := used + {n};
      }
      assert DrawLoop(min, max, unique, dozens, held, before)
          == DrawLoop(min, max, unique, dozens, held + [n], rest);
      nums[len] := n;
      assert nums[..len + 1] == held + [n];
      len := len + 1;
    }
    assert nums[..] == nums[..len];
    drew := true;
  }

  /** `nums.sort((a, b) => a - b)`: numeric ascending sort in place (an
      insertion sort; only its outcome is the source's). */
  method SortAscending(a: array<int>)
    modifies a
    ensures Ascending(a[..])
    ensures multiset(a[..]) == multiset(old(a[..]))
  {
    var i := 0;
    while i < a.Length
      invariant 0 <= i <= a.Length
      invariant forall k, l :: 0 <= k < l < i ==> a[k] <= a[l]
      invariant multiset(a[..]) == multiset(old(a[..]))
    {
      InsertLast(a, i);
      i := i + 1;
    }
  }

  /** Moves `a[i]` down into the ascending prefix `a[..i]`, leaving
      `a[..i + 1]` ascending. */
  method InsertLast(a: array<int>, i: int)
    requires 0 <= i < a.Length
    requires forall k, l :: 0 <= k < l < i ==> a[k] <= a[l]
    modifies a
    ensures forall k, l :: 0 <= k < l <= i ==> a[k] <= a[l]
    ensures multiset(a[..]) == multiset(old(a[..]))
  {
    var j := i;
    while j > 0 && a[j - 1] > a[j]
      invariant 0 <= j <= i
      invariant forall k, l :: 0 <= k < l <= i && k != j && l != j ==> a[k] <= a[l]
      invariant forall l :: j < l <= i ==> a[j] <= a[l]
      invariant multiset(a[..]) == multiset(old(a[..]))
    {
      SwapDown(a, j);
      j := j - 1;
    }
  }

  method SwapDown(a: array<int>, j: int)
    requires 0 < j < a.Length
    modifies a
    ensures a[j - 1] == old(a[j]) && a[j] == old(a[j - 1])
    ensures forall k :: 0 <= k < a.Length && k != j - 1 && k != j ==> a[k] == old(a[k])
    ensures multiset(a[..]) == multiset(old(a[..]))
  {
    a[j - 1], a[j] := a[j], a[j - 1];
  }

  /** A rearrangement of a sequence without repeats has no repeats. */
  lemma DistinctPermutation(s: seq<int>, t: seq<int>)
    requires Distinct(s) && multiset(s) == multiset(t)
    ensures Distinct(t)
  {
    forall i, j | 0 <= i < j < |t|
      ensures t[i] != t[j]
    {
      if t[i] == t[j] {
        TwoOccurrences(t, i, j);
        AtMostOnce(s, t[i]);
        assert false;
      }
    }
  }

  /** A rearrangement of a sequence within `[min, max]` stays within it. */
  lemma InRangePermutation(s: seq<int>, t: seq<int>, min: int, max: int)
    requires InRange(s, min, max) && multiset(s) == multiset(t)
    ensures InRange(t, min, max)
  {
    forall i | 0 <= i < |t|
      ensures min <= t[i] <= max
    {
      assert t[i] in multiset(s);
    }
  }

  lemma TwoOccurrences(s: seq<int>, i: int, j: int)
    requires 0 <= i < j < |s| && s[i] == s[j]
    ensures multiset(s)[s[i]] >= 2
  {
    assert s == s[..j] + [s[j]] + s[j + 1..];
    assert s[i] in multiset(s[..j]);
  }

  lemma {:induction false} AtMostOnce(s: seq<int>, v: int)
    requires Distinct(s)
    ensures multiset(s)[v] <= 1
  {
    if s != [] {
      var last := |s| - 1;
      assert s == s[..last] + [s[last]];
      AtMostOnce(s[..last], v);
      if v == s[last] {
        assert v !in s[..last];
      }
    }
  }

  // ---------------------------------------------------------------------
  // The full-range boundary
  // ---------------------------------------------------------------------

  /** The integers of `[min, max]`, and how many there are. */
  function RangeSet(min: int, max: int): (r: set<int>)
    requires min <= max + 1
    ensures forall v :: v in r <==> min <= v <= max
    ensures |r| == max - min + 1
    decreases max - min
  {
    if max < min then {} else RangeSet(min, max - 1) + {max}
  }

  lemma {:induction false} DistinctSize(s: seq<int>)
    requires Distinct(s)
    ensures |Elems(s)| == |s|
  {
    if s != [] {
      var last := |s| - 1;
      var init := s[..last];
      DistinctSize(init);
      assert s[last] !in init;
      assert Elems(s) == Elems(init) + {s[last]};
    }
  }

  lemma SubsetSameSize(a: set<int>, b: set<int>)
    requires a <= b && |a| == |b|
    ensures a == b
  {
    assert a + b == b;
    assert a * b == a;
    assert |b - a| == 0;
  }

  /** With unique picks and as many picks as values, a game holds every value
      of the range, each exactly once. */
  lemma FullRangeGame(rules: LotteryRules, game: seq<int>)
    requires IsGame(rules, Available(rules.range), game)
    requires rules.uniqueNumbers && rules.range.min <= rules.range.max
    ensures forall v :: rules.range.min <= v <= rules.range.max <==> v in game
    ensures forall v :: v in game ==> multiset(game)[v] == 1
  {
    var min, max := rules.range.min, rules.range.max;
    assert Distinct(game) && InRange(game, min, max);
    DistinctSize(game);
    var held, all := Elems(game), RangeSet(min, max);
    assert held <= all by {
      forall v | v in held
        ensures v in all
      {
        var i :| 0 <= i < |game| && game[i] == v;
      }
    }
    SubsetSameSize(held, all);
    forall v
      ensures min <= v <= max <==> v in game
    {
      assert v in all <==> v in held;
    }
    forall v | v in game
      ensures multiset(game)[v] == 1
    {
      AtMostOnce(game, v);
    }
  }

  /** When the full-range game is also sorted, it is exactly
      `min, min + 1, ..., max`. */
  lemma FullRangeSortedGame(rules: LotteryRules, game: seq<int>)
    requires IsGame(rules, Available(rules.range), game)
    requires rules.uniqueNumbers && rules.sortAscending && rules.range.min <= rules.range.max
    ensures forall i :: 0 <= i < |game| ==> game[i] == rules.range.min + i
  {
    var n := |game|;
    forall i | 0 <= i < n
      ensures game[i] == rules.range.min + i
    {
      RiseFromStart(game, i);
      RiseToEnd(game, i);
    }
  }

  lemma {:induction false} RiseFromStart(s: seq<int>, i: int)
    requires Ascending(s) && Distinct(s) && 0 <= i < |s|
    ensures s[i] >= s[0] + i
  {
    if i > 0 {
      RiseFromStart(s, i - 1);
    }
  }

  lemma {:induction false} RiseToEnd(s: seq<int>, i: int)
    requires Ascending(s) && Distinct(s) && 0 <= i < |s|
    ensures s[|s| - 1] >= s[i] + (|s| - 1 - i)
    decreases |s| - i
  {
    if i < |s| - 1 {
      RiseToEnd(s, i + 1);
    }
  }

  // ---------------------------------------------------------------------
  // A batch of games (generateGames)
  // ---------------------------------------------------------------------

  /** `n` more calls of `generateGame` after the games `done`, each on the
      words the previous call left; the first failing call ends the batch
      with its error and no games. On success the batch holds `done` and
      then `n` games meeting `IsGame`; when both checks pass, the only
      possible failure is running out of words. */
  function Batch(rules: LotteryRules, n: nat, dozens: int, done: seq<seq<int>>, words: seq<Word>)
    : (b: Generated<seq<seq<int>>>)
    requires DrawDefined(rules, dozens)
    ensures b.result.Ok? ==>
      |b.result.value| == |done| + n && done <= b.result.value &&
      forall k :: |done| <= k < |b.result.value| ==> IsGame(rules, dozens, b.result.value[k])
    ensures DozensAllowed(rules, dozens) && UniqueFeasible(rules, dozens) && b.result.Err? ==>
      b.result.error == EntropyExhausted
    decreases n
  {
    if n == 0 then Generated(Ok(done), words)
    else
      var first := Game(rules, dozens, words);
      match first.result
      case Err(e) => Generated(Err(e), first.rest)
      case Ok(game) =>
        var b := Batch(rules, n - 1, dozens, done + [game], first.rest);
        assert b.result.Ok? ==> (done + [game])[|done|] == b.result.value[|done|];
        b
  }

  /** One step of `Batch`: the next game, then the rest of the batch. */
  lemma BatchStep(rules: LotteryRules, n: nat, dozens: int, done: seq<seq<int>>, words: seq<Word>,
                  game: Result<seq<int>>, rest: seq<Word>)
    requires DrawDefined(rules, dozens) && n > 0
    requires Generated(game, rest) == Game(rules, dozens, words)
    ensures game.Err? ==> Batch(rules, n, dozens, done, words) == Generated(Err(game.error), rest)
    ensures game.Ok? ==> Batch(rules, n, dozens, done, words) == Batch(rules, n - 1, dozens, done + [game.value], rest)
  {
  }

  /** The checks of `generateGame` depend only on the rules and the count:
      a batch fails them on its first game, before any word is read, or
      never, and then it can only run out of words. A successful batch
      holds `n` games meeting `IsGame`. */
  lemma BatchChecks(rules: LotteryRules, n: nat, dozens: int, words: seq<Word>)
    requires DrawDefined(rules, dozens) && n > 0
    ensures var b := Batch(rules, n, dozens, [], words);
      (!DozensAllowed(rules, dozens) ==> b == Generated(Err(PickCountOutOfRange), words)) &&
      (DozensAllowed(rules, dozens) && !UniqueFeasible(rules, dozens) ==>
         b == Generated(Err(InsufficientRange), words)) &&
      (b.result == Err(EntropyExhausted) ==>
         DozensAllowed(rules, dozens) && UniqueFeasible(rules, dozens)) &&
      (b.result.Ok? ==>
         |b.result.value| == n && forall g :: g in b.result.value ==> IsGame(rules, dozens, g))
  {
    var first := Game(rules, dozens, words);
    BatchStep(rules, n, dozens, [], words, first.result, first.rest);
    var b := Batch(rules, n, dozens, [], words);
    if b.result.Ok? {
      forall g | g in b.result.value
        ensures IsGame(rules, dozens, g)
      {
        var k :| 0 <= k < |b.result.value| && b.result.value[k] == g;
      }
    }
  }

  /** One more than the largest length of an array: a batch of this many
      games or more cannot be allocated. */
  const ArrayLengthLimit := 0x1_0000_0000

  /** `generateGames`: reject a non-positive count, then allocate the batch,
      which fails for a count of 2^32 or more before any game is made, then
      call `generateGame` `gamesCount` times in order, each call on the words
      the previous one left, exactly as `Batch` does. The checks of
      `generateGame` depend only on the rules and the count, so they fail on
      the first game (before any word is consumed) or never. */
  method GenerateGames(rules: LotteryRules, gamesCount: int, dozens: int, words: seq<Word>)
    returns (r: Result<seq<seq<int>>>, rest: seq<Word>)
    requires 0 < gamesCount < ArrayLengthLimit ==> DrawDefined(rules, dozens)
    ensures gamesCount <= 0 ==> r == Err(InvalidGamesCount) && rest == words
    ensures gamesCount >= ArrayLengthLimit ==> r == Err(InvalidArrayLength) && rest == words
    ensures 0 < gamesCount < ArrayLengthLimit ==>
      Generated(r, rest) == Batch(rules, gamesCount, dozens, [], words)
    ensures 0 < gamesCount < ArrayLengthLimit && !DozensAllowed(rules, dozens) ==>
      r == Err(PickCountOutOfRange) && rest == words
    ensures 0 < gamesCount < ArrayLengthLimit && DozensAllowed(rules, dozens) &&
            !UniqueFeasible(rules, dozens) ==>
      r == Err(InsufficientRange) && rest == words
    ensures r == Err(EntropyExhausted) ==>
      0 < gamesCount < ArrayLengthLimit && DozensAllowed(rules, dozens) && UniqueFeasible(rules, dozens)
    ensures r.Err? && 0 < gamesCount < ArrayLengthLimit &&
            DozensAllowed(rules, dozens) && UniqueFeasible(rules, dozens) ==>
      r.error == EntropyExhausted
    ensures r.Ok? ==>
      |r.value| == gamesCount &&
      forall g :: g in r.value ==> IsGame(rules, dozens, g)
  {
    if gamesCount <= 0 {
      return Err(InvalidGamesCount), words;
    }
    if gamesCount >= ArrayLengthLimit {
      return Err(InvalidArrayLength), words;
    }
    BatchChecks(rules, gamesCount, dozens, words);
    var games: seq<seq<int>> := [];
    ghost var left: nat := gamesCount;
    rest := words;
    while |games| < gamesCount
      invariant left == gamesCount - |games|
      invariant Batch(rules, left, dozens, games, rest) == Batch(rules, gamesCount, dozens, [], words)
      decreases left
    {
      ghost var before := rest;
      var game;
      game, rest := GenerateGame(rules, dozens, rest);
      BatchStep(rules, left, dozens, games, before, game, rest);
      if game.Err? {
        return Err(game.error), rest;
      }
      games, left := games + [game.value], left - 1;
    }
    r := Ok(games);
  }

  // ---------------------------------------------------------------------
  // The shipped table fed to the generator
  // ---------------------------------------------------------------------

  /** Every shipped variant can be sampled, and for every allowed count the
      uniqueness check passes. */
  lemma TableNeverInsufficient(k: LotteryKey, dozens: int)
    requires DozensAllowed(Lottery(k), dozens)
    ensures SpreadFits(Lottery(k).range.min, Lottery(k).range.max)
    ensures UniqueFeasible(Lottery(k), dozens)
  {
  }

  /** A Mega-Sena game of six: six distinct values of 1..60, strictly
      ascending. */
  lemma MegaSenaGame(game: seq<int>)
    requires IsGame(Lottery(MegaSena), 6, game)
    ensures |game| == 6 && InRange(game, 1, 60)
    ensures forall i, j :: 0 <= i < j < |game| ==> game[i] < game[j]
  {
  }

  /** A Lotomania game: fifty distinct values of 0..99, ascending. */
  lemma LotomaniaGame(game: seq<int>)
    requires IsGame(Lottery(Lotomania), 50, game)
    ensures |game| == 50 && InRange(game, 0, 99)
    ensures forall i, j :: 0 <= i < j < |game| ==> game[i] < game[j]
  {
  }

  /** The custom variant allows 60 picks out of 1..60: such a game is the
      whole range, in order. */
  lemma CustomFullGame(game: seq<int>)
    requires IsGame(Lottery(Custom), 60, game)
    ensures forall i :: 0 <= i < 60 ==> game[i] == i + 1
  {
    FullRangeSortedGame(Lottery(Custom), game);
  }

  /** Three Mega-Sena games of six: the table's rules never trip a check, so
      the batch is three successive games on the words, each strictly
      ascending within 1..60, or it ran out of entropy. */
  method MegaSenaBatch(words: seq<Word>) returns (r: Result<seq<seq<int>>>)
    ensures r == Batch(Lottery(MegaSena), 3, 6, [], words).result
    ensures r.Err? ==> r.error == EntropyExhausted
    ensures r.Ok? ==> |r.value| == 3
    ensures r.Ok? ==> forall g :: g in r.value ==>
      |g| == 6 && InRange(g, 1, 60) && forall i, j :: 0 <= i < j < |g| ==> g[i] < g[j]
  {
    var rules := Lottery(MegaSena);
    TableNeverInsufficient(MegaSena, 6);
    var rest;
    r, rest := GenerateGames(rules, 3, 6, words);
    if r.Ok? {
      forall g | g in r.value
        ensures |g| == 6 && InRange(g, 1, 60) && forall i, j :: 0 <= i < j < |g| ==> g[i] < g[j]
      {
        MegaSenaGame(g);
      }
    }
  }
}
