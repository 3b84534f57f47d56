// The outcome resolvers of the RESULT effect (chooser and team split) and the
// two player updates of the race effect (lineup at RACE_READY, start
// velocities at RACING), each a function from the current registry to the one
// handed back to setPlayers.

module Resolve {
  import opened Types
  import opened Contacts
  import opened RandomUtil

  // ---------------------------------------------------------------------------
  // The shuffled player list seen through its ids

  lemma IdsSwap(ps: seq<Player>, i: nat, j: nat)
    requires i < |ps| && j < |ps|
    ensures Ids(Swap(ps, i, j)) == Swap(Ids(ps), i, j)
  {
    var l, r := Ids(Swap(ps, i, j)), Swap(Ids(ps), i, j);
    assert forall k :: 0 <= k < |l| ==> l[k] == r[k];
  }

  /** Shuffling players and then taking ids is shuffling the ids. */
  lemma {:induction false} IdsFisherYatesFrom(ps: seq<Player>, current: nat, samples: seq<real>)
    requires current <= |ps| && current <= |samples| && AllSamples(samples)
    ensures Ids(FisherYatesFrom(ps, current, samples)) == FisherYatesFrom(Ids(ps), current, samples)
    decreases current
  {
    if current > 0 {
      var j := PickIndex(samples[0], current);
      IdsSwap(ps, current - 1, j);
      IdsFisherYatesFrom(Swap(ps, current - 1, j), current - 1, samples[1..]);
    }
  }

  lemma SwapDistinct(s: seq<int>, i: nat, j: nat)
    requires i < |s| && j < |s| && Distinct(s)
    ensures Distinct(Swap(s, i, j))
  {
    var t := Swap(s, i, j);
    forall a, b | 0 <= a < b < |t| ensures Apart(t, a, b) {
      var a' := if a == i then j else if a == j then i else a;
      var b' := if b == i then j else if b == j then i else b;
      assert t[a] == s[a'] && t[b] == s[b'];
      DistinctAt(s, a', b');
    }
  }

  lemma {:induction false} FisherYatesFromDistinct(s: seq<int>, current: nat, samples: seq<real>)
    requires current <= |s| && current <= |samples| && AllSamples(samples) && Distinct(s)
    ensures Distinct(FisherYatesFrom(s, current, samples))
    decreases current
  {
    if current > 0 {
      var j := PickIndex(samples[0], current);
      SwapDistinct(s, current - 1, j);
      FisherYatesFromDistinct(Swap(s, current - 1, j), current - 1, samples[1..]);
    }
  }

  /**
   * The ids of the shuffled players list every key exactly once.
   */
  lemma ShuffledIds(c: Contacts, samples: seq<real>)
    requires Valid(c) && Size(c) <= |samples| && AllSamples(samples)
    ensures var ids := Ids(FisherYates(Values(c), samples));
      && |ids| == Size(c)
      && Distinct(ids)
      && (forall k :: k in ids <==> k in c.entries)
  {
    var ids := Ids(FisherYates(Values(c), samples));
    IdsFisherYatesFrom(Values(c), Size(c), samples);
    IdsOfValues(c);
    assert ids == FisherYates(c.order, samples);
    FisherYatesFromDistinct(c.order, Size(c), samples);
    FisherYatesPermutes(c.order, samples);
    forall k ensures k in ids <==> k in c.entries {
      assert k in ids <==> k in multiset(ids);
      assert k in c.order <==> k in multiset(c.order);
      if k in c.order {
        var i :| 0 <= i < |c.order| && c.order[i] == k;
      }
    }
  }

  // ---------------------------------------------------------------------------
  // The guard of the RESULT effect

  predicate HasOutcome(p: Player) { p.isWinner || p.isLoser || p.team.Some? }

  /** shouldRun: no player carries an outcome yet. */
  predicate ShouldRun(c: Contacts) {
    !exists id :: id in c.entries && HasOutcome(c.entries[id])
  }

  // ---------------------------------------------------------------------------
  // Chooser

  /** The chooser's update of one player: winner iff it is the drawn winner. */
  function ChooserPlayer(p: Player, winner: int): Player {
    var isWinner := p.id == winner;
    p.(isWinner := isWinner, isLoser := !isWinner, team := None)
  }

  /** Every player is marked winner when its id is the winner's, loser otherwise. */
  function ChooserResolve(c: Contacts, winner: int): (r: Contacts)
    requires Valid(c)
    ensures Valid(r) && r.order == c.order && r.entries.Keys == c.entries.Keys
    ensures forall id :: id in r.entries ==> r.entries[id] == ChooserPlayer(c.entries[id], winner)
  {
    Contacts(c.order, map id | id in c.entries :: ChooserPlayer(c.entries[id], winner))
  }

  ghost function Winners(c: Contacts): set<int> {
    set id | id in c.entries && c.entries[id].isWinner
  }

  ghost function Losers(c: Contacts): set<int> {
    set id | id in c.entries && c.entries[id].isLoser
  }

  /** The chooser round: the head of the shuffle wins, every other player loses. */
  function ChooserRound(c: Contacts, samples: seq<real>): Contacts
    requires Valid(c) && Size(c) >= 1 && Size(c) <= |samples| && AllSamples(samples)
  {
    FisherYatesPermutes(Values(c), samples);
    ChooserResolve(c, FisherYates(Values(c), samples)[0].id)
  }

  /** With a registered winner id, the winners are exactly that id and the losers all others. */
  lemma ChooserResolveSplits(c: Contacts, w: int)
    requires Valid(c) && w in c.entries
    ensures Winners(ChooserResolve(c, w)) == {w}
    ensures Losers(ChooserResolve(c, w)) == c.entries.Keys - {w}
  {
    var r := ChooserResolve(c, w);
    forall id | id in r.entries ensures r.entries[id].isWinner <==> id == w {
      assert c.entries[id].id == id;
    }
  }

  /**
   * With n >= 1 players exactly one player wins, isLoser is the negation of
   * isWinner, no player has a team, so n - 1 players lose; nothing but the
   * outcome fields changes.
   */
  lemma ChooserOutcome(c: Contacts, samples: seq<real>)
    requires Valid(c) && Size(c) >= 1 && Size(c) <= |samples| && AllSamples(samples)
    ensures var r := ChooserRound(c, samples);
      && r.order == c.order && r.entries.Keys == c.entries.Keys
      && (exists w :: w in c.entries && Winners(r) == {w})
      && |Winners(r)| == 1
      && |Losers(r)| == Size(c) - 1
      && (forall id :: id in r.entries ==>
            && r.entries[id].isLoser == !r.entries[id].isWinner
            && r.entries[id].team == None
            && r.entries[id] == c.entries[id].(isWinner := r.entries[id].isWinner,
                                               isLoser := r.entries[id].isLoser, team := None))
  {
    ShuffledIds(c, samples);
    var w := Ids(FisherYates(Values(c), samples))[0];
    assert w in c.entries;
    ChooserResolveSplits(c, w);
    SizeIsKeyCount(c);
  }

  // ---------------------------------------------------------------------------
  // Team split

  function TeamOfId(teamA: seq<int>, id: int): Team {
    if id in teamA then A else B
  }

  /** The team-split update of one player. */
  function TeamPlayer(p: Player, team: Team, hueA: real, hueB: real): Player {
    p.(isWinner := false, isLoser := false, team := Some(team),
       hue := if team == A then hueA else hueB, saturation := 90.0)
  }

  /**
   * Players whose id is among the first ceil(n/2) shuffled players join team
   * A with hue hueA, all others team B with hue hueB; no one wins or loses.
   */
  function TeamSplitResolve(c: Contacts, shuffled: seq<Player>, hueA: real, hueB: real): (r: Contacts)
    requires Valid(c)
    ensures Valid(r) && r.order == c.order && r.entries.Keys == c.entries.Keys
    ensures forall id :: id in r.entries ==>
      r.entries[id] == TeamPlayer(c.entries[id], TeamOfId(Ids(shuffled[..(|shuffled| + 1) / 2]), id), hueA, hueB)
  {
    var teamA := Ids(shuffled[..(|shuffled| + 1) / 2]);
    Contacts(c.order, map id | id in c.entries :: TeamPlayer(c.entries[id], TeamOfId(teamA, id), hueA, hueB))
  }

  ghost function TeamMembers(c: Contacts, t: Team): set<int> {
    set id | id in c.entries && c.entries[id].team == Some(t)
  }

  /** The team-split round: shuffle, split at ceil(n/2), and one hue per team. */
  function TeamSplitRound(c: Contacts, samples: seq<real>, hueA: real, hueB: real): Contacts
    requires Valid(c) && Size(c) <= |samples| && AllSamples(samples)
  {
    TeamSplitResolve(c, FisherYates(Values(c), samples), hueA, hueB)
  }

  /** A distinct list split in two: the tail holds exactly the elements missing from the head. */
  lemma SplitMembers(ids: seq<int>, mid: nat, x: int)
    requires Distinct(ids) && mid <= |ids| && x in ids
    ensures x in ids[mid..] <==> x !in ids[..mid]
  {
    var k :| 0 <= k < |ids| && ids[k] == x;
    forall i | 0 <= i < |ids| && i != k ensures ids[i] != x {
      DistinctAt(ids, i, k);
    }
    if k < mid {
      assert ids[..mid][k] == x;
      assert forall j :: 0 <= j < |ids| - mid ==> ids[mid..][j] != x;
    } else {
      assert ids[mid..][k - mid] == x;
      assert forall i :: 0 <= i < mid ==> ids[..mid][i] != x;
    }
  }

  /** The teams are the two halves of a distinct list of all keys. */
  lemma TeamSplitHalves(c: Contacts, shuffled: seq<Player>, hueA: real, hueB: real)
    requires Valid(c)
    requires Distinct(Ids(shuffled)) && forall k :: k in Ids(shuffled) <==> k in c.entries
    ensures var ids := Ids(shuffled); var mid := (|shuffled| + 1) / 2;
      && TeamMembers(TeamSplitResolve(c, shuffled, hueA, hueB), A) == set x | x in ids[..mid]
      && TeamMembers(TeamSplitResolve(c, shuffled, hueA, hueB), B) == set x | x in ids[mid..]
  {
    var r := TeamSplitResolve(c, shuffled, hueA, hueB);
    var ids := Ids(shuffled);
    var mid := (|shuffled| + 1) / 2;
    assert Ids(shuffled[..mid]) == ids[..mid];
    forall x | x in ids[..mid] ensures x in ids {
      var i :| 0 <= i < mid && ids[..mid][i] == x;
      assert ids[i] == x;
    }
    forall x | x in ids[mid..] ensures x in ids {
      var i :| 0 <= i < |ids| - mid && ids[mid..][i] == x;
      assert ids[mid + i] == x;
    }
    forall x | x in ids ensures x in ids[mid..] <==> x !in ids[..mid] {
      SplitMembers(ids, mid, x);
    }
  }

  lemma HalvesCard(ids: seq<int>, mid: nat)
    requires Distinct(ids) && mid <= |ids|
    ensures |set x | x in ids[..mid]| == mid
    ensures |set x | x in ids[mid..]| == |ids| - mid
  {
    var front, back := ids[..mid], ids[mid..];
    DistinctSlice(ids, 0, mid);
    DistinctSlice(ids, mid, |ids|);
    assert ids[0..mid] == front && ids[mid..|ids|] == back;
    DistinctCard(front);
    DistinctCard(back);
  }

  /** Splitting a distinct list of all n keys at ceil(n/2) gives teams of ceil(n/2) and floor(n/2). */
  lemma TeamSplitCounts(c: Contacts, shuffled: seq<Player>, hueA: real, hueB: real)
    requires Valid(c) && |shuffled| == Size(c)
    requires Distinct(Ids(shuffled)) && forall k :: k in Ids(shuffled) <==> k in c.entries
    ensures var r := TeamSplitResolve(c, shuffled, hueA, hueB);
      && |TeamMembers(r, A)| == (Size(c) + 1) / 2
      && |TeamMembers(r, B)| == Size(c) / 2
  {
    var ids := Ids(shuffled);
    var mid := (|shuffled| + 1) / 2;
    var r := TeamSplitResolve(c, shuffled, hueA, hueB);
    TeamSplitHalves(c, shuffled, hueA, hueB);
    HalvesCard(ids, mid);
    assert TeamMembers(r, A) == set x | x in ids[..mid];
    assert |TeamMembers(r, A)| == mid;
  }

  /**
   * Team A holds ceil(n/2) players and team B the other floor(n/2), so the
   * teams differ by at most one and together hold all n players; every
   * player is in exactly one team, wears its team's hue and neither wins
   * nor loses.
   */
  lemma TeamSplitOutcome(c: Contacts, samples: seq<real>, hueA: real, hueB: real)
    requires Valid(c) && Size(c) <= |samples| && AllSamples(samples)
    ensures var r := TeamSplitRound(c, samples, hueA, hueB);
      && r.order == c.order && r.entries.Keys == c.entries.Keys
      && |TeamMembers(r, A)| == (Size(c) + 1) / 2
      && |TeamMembers(r, B)| == Size(c) / 2
      && 0 <= |TeamMembers(r, A)| - |TeamMembers(r, B)| <= 1
      && |TeamMembers(r, A)| + |TeamMembers(r, B)| == Size(c)
      && TeamMembers(r, A) !! TeamMembers(r, B)
      && (forall id :: id in r.entries ==>
            && r.entries[id].team.Some?
            && !r.entries[id].isWinner && !r.entries[id].isLoser
            && r.entries[id].hue == (if r.entries[id].team == Some(A) then hueA else hueB)
            && r.entries[id].saturation == 90.0)
  {
    var shuffled := FisherYates(Values(c), samples);
    FisherYatesPermutes(Values(c), samples);
    ShuffledIds(c, samples);
    TeamSplitCounts(c, shuffled, hueA, hueB);
  }

  // ---------------------------------------------------------------------------
  // The finding about the RESULT effect's reset timeout

  /**
   * The RESULT effect as written: its dependency list holds `players`, so
   * every new players map re-runs it. The re-run first runs the cleanup,
   * which cancels the pending reset timeout, and the body arms a timeout
   * again only when the guard lets it resolve the round anew. The result
   * is whether a reset timeout is pending after such a re-run.
   */
  function ResetPendingAfterRerun(c: Contacts, mode: Mode): bool {
    mode != Race && ShouldRun(c) && Size(c) > 0
  }

  /**
   * Resolving a round puts an outcome on every player, so the re-run that
   * the resolver's own setPlayers triggers finds the guard closed and leaves
   * no reset timeout pending: as written, RESULT never resets by itself.
   */
  lemma ResolvedRoundDropsReset(c: Contacts, samples: seq<real>, hueA: real, hueB: real, mode: Mode)
    requires Valid(c) && Size(c) >= 1 && Size(c) <= |samples| && AllSamples(samples)
    ensures !ShouldRun(ChooserRound(c, samples))
    ensures !ShouldRun(TeamSplitRound(c, samples, hueA, hueB))
    ensures !ResetPendingAfterRerun(ChooserRound(c, samples), mode)
    ensures !ResetPendingAfterRerun(TeamSplitRound(c, samples, hueA, hueB), mode)
  {
    var k := c.order[0];
    assert k in c.entries;
    var r1 := ChooserRound(c, samples);
    var r2 := TeamSplitRound(c, samples, hueA, hueB);
    assert HasOutcome(r1.entries[k]);
    assert HasOutcome(r2.entries[k]);
  }

  // ---------------------------------------------------------------------------
  // Race lineup and start

  /** The spacing of the lineup: 80% of the width over n - 1 gaps, or 0 for one player. */
  function Spacing(width: real, n: nat): real {
    if n > 1 then width * 0.8 / (n - 1) as real else 0.0
  }

  /** Slot i of the lineup row: startX + i * spacing with startX = (width - 0.8 width) / 2. */
  function SlotX(width: real, n: nat, i: nat): real {
    (width - width * 0.8) / 2.0 + i as real * Spacing(width, n)
  }

  /**
   * The RACE_READY lineup: the i-th player in insertion order moves to slot
   * i of the start row, at y = height - BASE_CIRCLE_SIZE.
   */
  function LineUp(c: Contacts, width: real, height: real): (r: Contacts)
    requires Valid(c)
    ensures Valid(r) && r.order == c.order && r.entries.Keys == c.entries.Keys
    ensures forall id :: id in r.entries ==>
      r.entries[id] == c.entries[id].(x := SlotX(width, Size(c), IndexOf(c.order, id)),
                                      y := height - BaseCircleSize)
  {
    Contacts(c.order, map id | id in c.entries ::
      c.entries[id].(x := SlotX(width, Size(c), IndexOf(c.order, id)), y := height - BaseCircleSize))
  }

  /** The row is evenly spaced and centred: it runs from 10% to 90% of the width. */
  lemma SlotsSpanRow(width: real, n: nat)
    requires n >= 1
    ensures SlotX(width, n, 0) == width * 0.1
    ensures SlotX(width, n, n - 1) == (if n > 1 then width * 0.9 else width * 0.1)
    ensures forall i: nat :: SlotX(width, n, i + 1) == SlotX(width, n, i) + Spacing(width, n)
  {
    if n > 1 {
      var m := (n - 1) as real;
      assert m * (width * 0.8 / m) == width * 0.8;
    }
  }

  /** The i-th player in insertion order stands in slot i. */
  lemma LineUpPositions(c: Contacts, width: real, height: real)
    requires Valid(c)
    ensures var r := LineUp(c, width, height);
      forall i :: 0 <= i < Size(c) ==> r.entries[c.order[i]].x == SlotX(width, Size(c), i)
  {
    forall i | 0 <= i < Size(c) ensures IndexOf(c.order, c.order[i]) == i {
      IndexOfDistinct(c.order, i);
    }
  }

  /**
   * The lineup is evenly spaced: the first player starts at 10% of the
   * width, each next one a fixed step further, the last one at 90%; only x
   * and y change.
   */
  lemma LineUpSpacing(c: Contacts, width: real, height: real)
    requires Valid(c) && Size(c) >= 1
    ensures var r := LineUp(c, width, height);
      var n := Size(c);
      && r.entries[c.order[0]].x == width * 0.1
      && r.entries[c.order[n - 1]].x == (if n > 1 then width * 0.9 else width * 0.1)
      && (forall i :: 0 <= i < n - 1 ==>
            r.entries[c.order[i + 1]].x == r.entries[c.order[i]].x + Spacing(width, n))
      && (forall id :: id in r.entries ==>
            r.entries[id] == c.entries[id].(x := r.entries[id].x, y := height - BaseCircleSize))
  {
    LineUpPositions(c, width, height);
    SlotsSpanRow(width, Size(c));
  }

  /** The RACING entry: every player gets the start velocity Math.random() * 1 + 0.5. */
  function StartVelocities(c: Contacts, draws: map<int, real>): (r: Contacts)
    requires Valid(c)
    requires forall id :: id in c.entries ==> id in draws
    ensures Valid(r) && r.order == c.order && r.entries.Keys == c.entries.Keys
  {
    Contacts(c.order, map id | id in c.entries :: c.entries[id].(vy := draws[id] * 1.0 + 0.5))
  }

  /** Start velocities lie in [0.5, 1.5); nothing but vy changes. */
  lemma StartVelocitiesRange(c: Contacts, draws: map<int, real>)
    requires Valid(c)
    requires forall id :: id in c.entries ==> id in draws && IsSample(draws[id])
    ensures var r := StartVelocities(c, draws);
      forall id :: id in r.entries ==>
        && 0.5 <= r.entries[id].vy < 1.5
        && r.entries[id] == c.entries[id].(vy := r.entries[id].vy)
  {
  }
}
