/** The replay of a turtle-match session from its seed: a chain of hashes, one draw per
    slot, colour bands, and one match per colour that fills enough slots of a box.
    SHA-256 is the parameter `sha`. */
module TurtleMatch {
  import opened ByteStrings
  import opened LittleEndian

  /** The table of a game: `odds` are the upper ends of the colour bands. */
  datatype Game = Game(odds: seq<int>, rewards: seq<int>, slots: nat, threshold: nat, boxes: nat)

  const TURTLE := Game(
    [20, 40, 58, 73, 85, 93, 98, 100],
    [15000000, 15000000, 18000000, 20000000, 25000000, 35000000, 50000000, 100000000],
    9, 3, 3)

  predicate Valid(g: Game) {
    && 0 < |g.odds| == |g.rewards| && g.threshold > 0
    && 0 < g.odds[0] && g.odds[|g.odds| - 1] == 100
    && (forall i, j :: 0 <= i < j < |g.odds| ==> g.odds[i] < g.odds[j])
    && Ascending(g.rewards)
  }

  predicate Ascending(s: seq<int>) {
    (forall i :: 0 <= i < |s| ==> s[i] >= 0) && forall i, j :: 0 <= i < j < |s| ==> s[i] <= s[j]
  }

  // ---------- Draws ----------

  /** BigInt `%` truncates towards zero. */
  function TruncatedRemainder(v: int, n: int): int
    requires n > 0
  {
    if v >= 0 then v % n else -(-v % n)
  }

  function Abs(v: int): int {
    if v < 0 then -v else v
  }

  /** The draw of a seed: its signed value, modulo 100, without the sign. */
  function Draw(seed: Bytes): (rand: int)
    ensures 0 <= rand < 100
    ensures var v := TwosComplement(seed); ((if v < 0 then -v else v) - rand) % 100 == 0
  {
    Abs(TwosComplement(seed)) % 100
  }

  method DrawFrom(seed: Bytes) returns (rand: int)
    ensures rand == Draw(seed)
  {
    var value := SignedFromLittleEndian(seed);
    rand := TruncatedRemainder(value, 100);
    if rand < 0 {
      rand := -rand;
    }
  }

  /** The first band whose upper end lies above the draw. */
  predicate InBand(odds: seq<int>, rand: int, color: int) {
    && 0 <= color < |odds| && rand < odds[color]
    && (color > 0 ==> odds[color - 1] <= rand)
  }

  /** Every draw falls into exactly one band. */
  lemma BandIsUnique(g: Game, rand: int, c: int, d: int)
    requires Valid(g) && InBand(g.odds, rand, c) && InBand(g.odds, rand, d)
    ensures c == d
  {
    assert c < d ==> !InBand(g.odds, rand, d) by {
      if c < d { BandsInOrder(g, rand, c, d); }
    }
    assert d < c ==> !InBand(g.odds, rand, c) by {
      if d < c { BandsInOrder(g, rand, d, c); }
    }
  }

  lemma BandsInOrder(g: Game, rand: int, c: int, d: int)
    requires Valid(g) && InBand(g.odds, rand, c) && 0 <= d < |g.odds| && c < d
    ensures g.odds[d - 1] > rand
  {
    assert c == d - 1 || g.odds[c] < g.odds[d - 1];
  }

  /** The number of draws among 0..99 that give a colour is the width of its band. */
  function BandWidth(odds: seq<int>, color: int, upTo: nat): nat {
    if upTo == 0 then 0 else BandWidth(odds, color, upTo - 1) + if InBand(odds, upTo - 1, color) then 1 else 0
  }

  lemma {:induction false} BandWidthIs(g: Game, color: int, upTo: nat)
    requires Valid(g) && 0 <= color < |g.odds|
    ensures var low := if color > 0 then g.odds[color - 1] else 0;
            BandWidth(g.odds, color, upTo)
              == if upTo <= low then 0 else if upTo <= g.odds[color] then upTo - low else g.odds[color] - low
  {
    if upTo > 0 {
      BandWidthIs(g, color, upTo - 1);
    }
    assert color > 0 ==> g.odds[color - 1] >= g.odds[0];
  }

  /** The search for the colour of a draw; the last colour is the default. */
  method ColorOf(g: Game, rand: int) returns (color: nat)
    requires Valid(g) && 0 <= rand < 100
    ensures InBand(g.odds, rand, color)
  {
    color := |g.odds| - 1;
    for i := 0 to |g.odds|
      invariant color == |g.odds| - 1
      invariant forall j :: 0 <= j < i ==> g.odds[j] <= rand
    {
      if rand < g.odds[i] {
        color := i;
        break;
      }
    }
  }

  // ---------- One box ----------

  function SeedAfter(seed: Bytes, n: nat, sha: Bytes -> Bytes): Bytes {
    if n == 0 then seed else sha(SeedAfter(seed, n - 1, sha))
  }

  /** How many of the first n slots after `seed` show a colour. */
  function Shown(g: Game, seed: Bytes, n: nat, color: int, sha: Bytes -> Bytes): nat {
    if n == 0 then 0
    else Shown(g, seed, n - 1, color, sha) + if InBand(g.odds, Draw(SeedAfter(seed, n, sha)), color) then 1 else 0
  }

  function Total(counts: seq<nat>): nat {
    if counts == [] then 0 else Total(counts[..|counts| - 1]) + counts[|counts| - 1]
  }

  lemma {:induction false} TotalAfterOneMore(counts: seq<nat>, c: nat)
    requires c < |counts|
    ensures Total(counts[c := counts[c] + 1]) == Total(counts) + 1
  {
    var more, n := counts[c := counts[c] + 1], |counts| - 1;
    if c == n {
      assert more[..n] == counts[..n];
    } else {
      TotalAfterOneMore(counts[..n], c);
      assert more[..n] == counts[..n][c := counts[..n][c] + 1];
    }
  }

  lemma {:induction false} TotalOfZeros(counts: seq<nat>)
    requires forall i :: 0 <= i < |counts| ==> counts[i] == 0
    ensures Total(counts) == 0
  {
    if counts != [] {
      TotalOfZeros(counts[..|counts| - 1]);
    }
  }

  /** The slot loop of one box: every slot is counted once, under the colour of its draw. */
  method FillBox(g: Game, seed: Bytes, sha: Bytes -> Bytes) returns (counts: seq<nat>, next: Bytes)
    requires Valid(g)
    ensures next == SeedAfter(seed, g.slots, sha)
    ensures |counts| == |g.odds| && Total(counts) == g.slots
    ensures forall c :: 0 <= c < |counts| ==> counts[c] == Shown(g, seed, g.slots, c, sha)
  {
    counts := seq(|g.odds|, _ => 0);
    TotalOfZeros(counts);
    next := seed;
    for slot := 0 to g.slots
      invariant next == SeedAfter(seed, slot, sha)
      invariant |counts| == |g.odds| && Total(counts) == slot
      invariant Tallied(g, seed, slot, counts, sha)
    {
      next := sha(next);
      var rand := DrawFrom(next);
      var color := ColorOf(g, rand);
      TalliedOneMore(g, seed, slot, counts, color, sha);
      TotalAfterOneMore(counts, color);
      counts := counts[color := counts[color] + 1];
    }
  }

  /** Each colour is counted as often as the first n slots show it. */
  ghost predicate Tallied(g: Game, seed: Bytes, n: nat, counts: seq<nat>, sha: Bytes -> Bytes) {
    |counts| == |g.odds| && forall c :: 0 <= c < |counts| ==> counts[c] == Shown(g, seed, n, c, sha)
  }

  /** One slot more, under the colour of its draw and no other. */
  lemma TalliedOneMore(g: Game, seed: Bytes, slot: nat, counts: seq<nat>, color: nat, sha: Bytes -> Bytes)
    requires Valid(g) && InBand(g.odds, Draw(SeedAfter(seed, slot + 1, sha)), color)
    requires Tallied(g, seed, slot, counts, sha)
    ensures Tallied(g, seed, slot + 1, counts[color := counts[color] + 1], sha)
  {
    var rand := Draw(SeedAfter(seed, slot + 1, sha));
    forall c | InBand(g.odds, rand, c) ensures c == color { BandIsUnique(g, rand, c, color); }
  }

  function Matches(counts: seq<nat>, threshold: nat): (m: nat)
    ensures m <= |counts|
  {
    if counts == [] then 0
    else Matches(counts[..|counts| - 1], threshold) + if counts[|counts| - 1] >= threshold then 1 else 0
  }

  function Reward(counts: seq<nat>, rewards: seq<int>, threshold: nat): int
    requires |counts| <= |rewards|
  {
    if counts == [] then 0
    else
      var paid := if counts[|counts| - 1] >= threshold then rewards[|counts| - 1] else 0;
      Reward(counts[..|counts| - 1], rewards, threshold) + paid
  }

  /** The colours of a box that fill enough slots. */
  ghost function Matching(counts: seq<nat>, threshold: nat): set<nat> {
    set c: nat | c < |counts| && counts[c] >= threshold
  }

  lemma {:induction false} MatchesAre(counts: seq<nat>, threshold: nat)
    ensures Matches(counts, threshold) == |Matching(counts, threshold)|
  {
    if counts != [] {
      var front, n := counts[..|counts| - 1], |counts| - 1;
      MatchesAre(front, threshold);
      if counts[n] >= threshold {
        assert Matching(counts, threshold) == Matching(front, threshold) + {n};
      } else {
        assert Matching(counts, threshold) == Matching(front, threshold);
      }
    }
  }

  /** What one colour's count contributes to the reward: its own reward from `threshold` on.
      With the reward of no slots this determines the reward. */
  lemma {:induction false} RewardUpdate(counts: seq<nat>, rewards: seq<int>, threshold: nat, c: nat, n: nat)
    requires c < |counts| <= |rewards|
    ensures Reward(counts[c := n], rewards, threshold) + (if counts[c] >= threshold then rewards[c] else 0)
         == Reward(counts, rewards, threshold) + (if n >= threshold then rewards[c] else 0)
  {
    var k := |counts| - 1;
    if c == k {
      assert counts[c := n][..k] == counts[..k];
    } else {
      assert counts[c := n][..k] == counts[..k][c := n];
      RewardUpdate(counts[..k], rewards, threshold, c, n);
    }
  }

  lemma {:induction false} NoSlotsNoReward(k: nat, rewards: seq<int>, threshold: nat)
    requires k <= |rewards| && threshold > 0
    ensures Reward(seq(k, _ => 0), rewards, threshold) == 0
  {
    if k > 0 {
      NoSlotsNoReward(k - 1, rewards, threshold);
      assert seq(k, _ => 0 as nat)[..k - 1] == seq(k - 1, _ => 0 as nat);
    }
  }

  /** The slots bound the matches: each match uses `threshold` of them. */
  lemma {:induction false} MatchesUseSlots(counts: seq<nat>, threshold: nat)
    ensures threshold * Matches(counts, threshold) <= Total(counts)
  {
    if counts != [] {
      MatchesUseSlots(counts[..|counts| - 1], threshold);
    }
  }

  function Sum(s: seq<int>): int {
    if s == [] then 0 else Sum(s[..|s| - 1]) + s[|s| - 1]
  }

  lemma {:induction false} SumShift(s: seq<int>, low: nat, high: nat)
    requires low <= high < |s| && Ascending(s)
    ensures Sum(s[low..high]) <= Sum(s[low + 1..high + 1])
  {
    if low < high {
      SumShift(s, low, high - 1);
      SumSnoc(s, low, high);
      SumSnoc(s, low + 1, high + 1);
    }
  }

  /** k added n times. */
  function Times(n: nat, k: int): int {
    if n == 0 then 0 else Times(n - 1, k) + k
  }

  lemma {:induction false} TimesIs(n: nat, k: int)
    ensures Times(n, k) == n * k
  {
    if n > 0 {
      TimesIs(n - 1, k);
      assert n * k == (n - 1) * k + k;
    }
  }

  lemma {:induction false} TimesSum(m: nat, n: nat, k: int)
    ensures Times(m + n, k) == Times(m, k) + Times(n, k)
  {
    if n > 0 {
      TimesSum(m, n - 1, k);
    }
  }

  /** A box with m matches pays at least m times the least reward ... */
  lemma {:induction false} RewardAtLeast(counts: seq<nat>, rewards: seq<int>, threshold: nat)
    requires |counts| <= |rewards| && Ascending(rewards) && rewards != []
    ensures Times(Matches(counts, threshold), rewards[0]) <= Reward(counts, rewards, threshold)
  {
    var k := |counts|;
    if k > 0 {
      RewardAtLeast(counts[..k - 1], rewards, threshold);
      assert rewards[0] <= rewards[k - 1];
    }
  }

  /** The sum of the m largest among the first k rewards. */
  function TopOf(rewards: seq<int>, k: nat, m: nat): int
    requires m <= k <= |rewards|
  {
    Sum(rewards[k - m..k])
  }

  lemma TopStep(rewards: seq<int>, k: nat, m: nat)
    requires m < k <= |rewards| && Ascending(rewards)
    ensures TopOf(rewards, k, m + 1) == TopOf(rewards, k - 1, m) + rewards[k - 1]
    ensures TopOf(rewards, k - 1, m) <= TopOf(rewards, k, m)
  {
    SumSnoc(rewards, k - 1 - m, k);
    SumShift(rewards, k - 1 - m, k - 1);
  }

  /** ... and at most the m largest rewards. */
  lemma {:induction false} RewardAtMost(counts: seq<nat>, rewards: seq<int>, threshold: nat)
    requires |counts| <= |rewards| && Ascending(rewards)
    ensures Reward(counts, rewards, threshold) <= TopOf(rewards, |counts|, Matches(counts, threshold))
  {
    var k := |counts|;
    if k > 0 {
      RewardAtMost(counts[..k - 1], rewards, threshold);
      TopStep(rewards, k, Matches(counts[..k - 1], threshold));
    }
  }

  lemma SumSnoc(s: seq<int>, low: nat, high: nat)
    requires low < high <= |s|
    ensures Sum(s[low..high]) == Sum(s[low..high - 1]) + s[high - 1]
  {
    assert s[low..high][..high - low - 1] == s[low..high - 1];
  }

  /** The sum of the `m` largest of ascending rewards. */
  function Top(rewards: seq<int>, m: nat): int
    requires m <= |rewards|
  {
    TopOf(rewards, |rewards|, m)
  }

  lemma {:induction false} TopGrows(rewards: seq<int>, m: nat, n: nat)
    requires m <= n <= |rewards| && Ascending(rewards)
    ensures Top(rewards, m) <= Top(rewards, n)
  {
    if m < n {
      TopGrows(rewards, m, n - 1);
      var top := rewards[|rewards| - n..|rewards|];
      SumFront(top);
      assert top[1..] == rewards[|rewards| - (n - 1)..|rewards|];
    }
  }

  lemma {:induction false} SumFront(s: seq<int>)
    requires s != []
    ensures Sum(s) == s[0] + Sum(s[1..])
  {
    var n := |s| - 1;
    if n == 0 {
      assert s[..0] == [] && s[1..] == [];
    } else {
      SumFront(s[..n]);
      assert s[..n][1..] == s[1..][..n - 1];
    }
  }

  /** The most matches a box can have. */
  function MostMatches(g: Game): (m: nat)
    requires Valid(g)
    ensures m <= |g.rewards|
  {
    if g.slots / g.threshold < |g.rewards| then g.slots / g.threshold else |g.rewards|
  }

  /** The counts of a full box. */
  predicate IsBox(g: Game, counts: seq<nat>) {
    |counts| == |g.odds| && |g.odds| == |g.rewards| && Total(counts) == g.slots
  }

  lemma BoxBounds(g: Game, counts: seq<nat>)
    requires Valid(g) && IsBox(g, counts)
    ensures Matches(counts, g.threshold) <= MostMatches(g)
    ensures Times(Matches(counts, g.threshold), g.rewards[0]) <= Reward(counts, g.rewards, g.threshold) <=
              Top(g.rewards, MostMatches(g))
  {
    var m, most := Matches(counts, g.threshold), MostMatches(g);
    assert m <= most by {
      MatchesUseSlots(counts, g.threshold);
      AtMostQuotient(g.threshold, m, g.slots);
    }
    BoxReward(g.rewards, counts, g.threshold, most);
  }

  lemma BoxReward(rewards: seq<int>, counts: seq<nat>, threshold: nat, most: nat)
    requires |counts| == |rewards| > 0 && Ascending(rewards)
    requires Matches(counts, threshold) <= most <= |rewards|
    ensures Times(Matches(counts, threshold), rewards[0]) <= Reward(counts, rewards, threshold) <= Top(rewards, most)
  {
    var m := Matches(counts, threshold);
    RewardAtLeast(counts, rewards, threshold);
    RewardAtMost(counts, rewards, threshold);
    TopGrows(rewards, m, most);
  }

  lemma MulMonotone(t: nat, a: int, b: int)
    ensures a <= b ==> t * a <= t * b
  {}

  lemma AtMostQuotient(t: nat, m: nat, n: nat)
    requires t > 0 && t * m <= n
    ensures m <= n / t
  {
    var q := n / t;
    MulMonotone(t, q + 1, m);
    assert t * (q + 1) == t * q + t;
    assert n < t * q + t;
  }

  // ---------- The session ----------

  predicate AllBoxes(g: Game, boxes: seq<seq<nat>>) {
    forall b :: 0 <= b < |boxes| ==> IsBox(g, boxes[b])
  }

  datatype Score = Score(matches: nat, reward: int)

  function BoxScore(g: Game, counts: seq<nat>): Score
    requires IsBox(g, counts)
  {
    Score(Matches(counts, g.threshold), Reward(counts, g.rewards, g.threshold))
  }

  function AddUp(scores: seq<Score>): Score {
    if scores == [] then Score(0, 0)
    else
      var rest, last := AddUp(scores[..|scores| - 1]), scores[|scores| - 1];
      Score(rest.matches + last.matches, rest.reward + last.reward)
  }

  /** What a session is settled with, from the counts of its boxes. */
  function SessionScore(g: Game, boxes: seq<seq<nat>>): Score
    requires AllBoxes(g, boxes)
  {
    AddUp(seq(|boxes|, b requires 0 <= b < |boxes| => BoxScore(g, boxes[b])))
  }

  /** Box b holds the draws of its own stretch of the hash chain. */
  ghost predicate DrawnFrom(g: Game, counts: seq<nat>, seed: Bytes, sha: Bytes -> Bytes) {
    && IsBox(g, counts)
    && forall c :: 0 <= c < |counts| ==> counts[c] == Shown(g, seed, g.slots, c, sha)
  }

  /** At most `most` matches and `top` reward, and at least `least` for each match. */
  predicate Fits(s: Score, most: int, top: int, least: int) {
    s.matches <= most && Times(s.matches, least) <= s.reward <= top
  }

  lemma {:induction false} AddedUpFits(scores: seq<Score>, most: int, top: int, least: int)
    requires forall b :: 0 <= b < |scores| ==> Fits(scores[b], most, top, least)
    ensures Fits(AddUp(scores), Times(|scores|, most), Times(|scores|, top), least)
  {
    if scores != [] {
      var front, last := scores[..|scores| - 1], scores[|scores| - 1];
      AddedUpFits(front, most, top, least);
      assert Fits(last, most, top, least);
      TimesSum(AddUp(front).matches, last.matches, least);
    }
  }

  lemma SessionSnoc(g: Game, front: seq<seq<nat>>, last: seq<nat>)
    requires AllBoxes(g, front) && IsBox(g, last)
    ensures AllBoxes(g, front + [last])
    ensures var s, b := SessionScore(g, front), BoxScore(g, last);
            SessionScore(g, front + [last]) == Score(s.matches + b.matches, s.reward + b.reward)
  {
    var boxes := front + [last];
    var scores := seq(|boxes|, b requires 0 <= b < |boxes| => BoxScore(g, boxes[b]));
    assert scores[..|front|] == seq(|front|, b requires 0 <= b < |front| => BoxScore(g, front[b]));
  }

  /** The bounds of a session, from those of its boxes. */
  lemma SessionBounds(g: Game, boxes: seq<seq<nat>>)
    requires Valid(g) && AllBoxes(g, boxes)
    ensures Fits(SessionScore(g, boxes), Times(|boxes|, MostMatches(g)),
                 Times(|boxes|, Top(g.rewards, MostMatches(g))), g.rewards[0])
  {
    var most, top := MostMatches(g), Top(g.rewards, MostMatches(g));
    var scores := seq(|boxes|, b requires 0 <= b < |boxes| => BoxScore(g, boxes[b]));
    forall b | 0 <= b < |scores| ensures Fits(scores[b], most, top, g.rewards[0]) {
      BoxBounds(g, boxes[b]);
    }
    AddedUpFits(scores, most, top, g.rewards[0]);
  }

  /** The seed that box b starts from. */
  function BoxSeed(g: Game, seed: Bytes, b: nat, sha: Bytes -> Bytes): Bytes {
    if b == 0 then seed else SeedAfter(BoxSeed(g, seed, b - 1, sha), g.slots, sha)
  }

  /** The boxes use the hash chain one after the other, `slots` steps each. */
  lemma {:induction false} BoxSeedIs(g: Game, seed: Bytes, b: nat, sha: Bytes -> Bytes)
    ensures BoxSeed(g, seed, b, sha) == SeedAfter(seed, b * g.slots, sha)
  {
    if b > 0 {
      BoxSeedIs(g, seed, b - 1, sha);
      SeedChains(seed, (b - 1) * g.slots, g.slots, sha);
      assert (b - 1) * g.slots + g.slots == b * g.slots;
    }
  }

  lemma {:induction false} SeedChains(seed: Bytes, n: nat, m: nat, sha: Bytes -> Bytes)
    ensures SeedAfter(SeedAfter(seed, n, sha), m, sha) == SeedAfter(seed, n + m, sha)
  {
    if m > 0 {
      SeedChains(seed, n, m - 1, sha);
    }
  }

  /** The pass over the counts of a finished box. */
  method ScoreBox(g: Game, counts: seq<nat>, before: nat, paid: int) returns (matches: nat, reward: int)
    requires Valid(g) && |counts| == |g.rewards|
    ensures matches == before + Matches(counts, g.threshold) && reward == paid + Reward(counts, g.rewards, g.threshold)
  {
    matches, reward := before, paid;
    for color := 0 to |counts|
      invariant matches == before + Matches(counts[..color], g.threshold)
      invariant reward == paid + Reward(counts[..color], g.rewards, g.threshold)
    {
      assert counts[..color + 1][..color] == counts[..color];
      if counts[color] >= g.threshold {
        matches := matches + 1;
        reward := reward + g.rewards[color];
      }
    }
    assert counts[..|counts|] == counts;
  }

  ghost predicate AllDrawn(g: Game, boxes: seq<seq<nat>>, seed: Bytes, sha: Bytes -> Bytes) {
    forall b :: 0 <= b < |boxes| ==> DrawnFrom(g, boxes[b], BoxSeed(g, seed, b, sha), sha)
  }

  lemma DrawnSnoc(g: Game, boxes: seq<seq<nat>>, counts: seq<nat>, seed: Bytes, sha: Bytes -> Bytes)
    requires AllDrawn(g, boxes, seed, sha) && DrawnFrom(g, counts, BoxSeed(g, seed, |boxes|, sha), sha)
    ensures AllDrawn(g, boxes + [counts], seed, sha)
  {}

  /** The box loop.  The boxes themselves are kept for the statement. */
  method Replay(g: Game, seed: Bytes, sha: Bytes -> Bytes) returns (matches: nat, reward: int, boxes: seq<seq<nat>>)
    requires Valid(g)
    ensures |boxes| == g.boxes && AllBoxes(g, boxes)
    ensures AllDrawn(g, boxes, seed, sha)
    ensures Score(matches, reward) == SessionScore(g, boxes)
  {
    var current := seed;
    matches, reward, boxes := 0, 0, [];
    for box := 0 to g.boxes
      invariant current == BoxSeed(g, seed, box, sha)
      invariant |boxes| == box && AllBoxes(g, boxes)
      invariant AllDrawn(g, boxes, seed, sha)
      invariant Score(matches, reward) == SessionScore(g, boxes)
    {
      var counts, next := FillBox(g, current, sha);
      DrawnSnoc(g, boxes, counts, seed, sha);
      SessionSnoc(g, boxes, counts);
      matches, reward := ScoreBox(g, counts, matches, reward);
      current, boxes := next, boxes + [counts];
    }
  }

  /** Of the 100 draws, as many give each colour. */
  lemma TurtleChances(color: nat)
    requires color < 8
    ensures BandWidth(TURTLE.odds, color, 100) == [20, 20, 18, 15, 12, 8, 5, 2][color]
  {
    TurtleTable();
    BandWidthIs(TURTLE, color, 100);
  }

  lemma TurtleTable()
    ensures Valid(TURTLE) && MostMatches(TURTLE) == 3 && Top(TURTLE.rewards, 3) == 185000000
  {
    assert TURTLE.rewards[5..8] == [35000000, 50000000, 100000000];
    SumOfThree(35000000, 50000000, 100000000);
  }

  lemma SumOfThree(a: int, b: int, c: int)
    ensures Sum([a, b, c]) == a + b + c
  {
    assert [a, b, c][..2] == [a, b] && [a, b][..1] == [a] && [a][..0] == [];
    assert Sum([a]) == a && Sum([a, b]) == a + b;
  }

  /** The session of the live validator: at most 9 matches over the three boxes, and a
      reward between these bounds, whatever the seed and the hash. */
  method ReplayTurtleMatch(seed: Bytes, sha: Bytes -> Bytes) returns (matches: nat, reward: int)
    ensures matches <= 9 && 15000000 * matches <= reward <= 555000000
  {
    TurtleTable();
    var boxes;
    matches, reward, boxes := Replay(TURTLE, seed, sha);
    SessionBounds(TURTLE, boxes);
    TimesIs(3, 3);
    TimesIs(3, 185000000);
    TimesIs(matches, 15000000);
  }
}
