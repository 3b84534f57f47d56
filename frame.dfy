// The state update of one animation frame (the setPlayers updater inside
// `animate`): per-player motion, the loser fade, finish detection and the
// sequential ranking of this frame's finishers.
//
// The Math.random() draws of a frame are an oracle map from player id to the
// two draws a racing player may consume; Math.sin, used only by the breathing
// size, is a parameter.

module Frame {
  import opened Types
  import opened Contacts

  /** The draws of one racing player in one frame: the 5% test and the boost draw. */
  datatype Draw = Draw(chance: real, boost: real)

  /** The outcome of updating one player. */
  datatype Step = Step(player: Player, racing: bool, finished: bool, crossY: real)

  /**
   * A record pushed to finishersThisFrame, reduced to what the sort and the
   * ranking read: its id, its (snapped) y, and the y it reached before the snap.
   */
  datatype Finisher = Finisher(id: int, y: real, crossY: real)

  /** The record a finishing step pushes. */
  function FinisherOf(s: Step): Finisher {
    Finisher(s.player.id, s.player.y, s.crossY)
  }

  /** What the sort of the finishers compares. */
  datatype FinishKey =
    | SnappedY   // a.y - b.y on the pushed records, whose y was already snapped to size / 2
    | CrossingY  // the y each finisher reached before the snap

  /** The per-player branch of the forEach. */
  function StepPlayer(p: Player, state: GameState, d: Draw, sin: real -> real): (s: Step)
    ensures s.player.id == p.id && s.player.rank == p.rank
    ensures s.finished ==> s.racing
    ensures s.racing <==> state == Racing && p.rank == None && !(state == Result)
  {
    if state == Result && p.isWinner then
      Step(p.(size := p.size * 1.0765), false, false, p.y)
    else if state == Result && p.isLoser then
      Step(p.(size := p.size * 0.9, opacity := Max(0.0, p.opacity - 0.05)), false, false, p.y)
    else if state == Racing && p.rank == None then
      var y := p.y - p.vy;
      var boosted := if d.chance < 0.05 then p.vy + (d.boost - 0.4) * 2.0 else p.vy;
      var vy := Max(0.1, Min(boosted, 4.0));
      if y <= p.size / 2.0 then Step(p.(y := p.size / 2.0, vy := 0.0), true, true, y)
      else Step(p.(y := y, vy := vy), true, false, y)
    else
      var phase := p.animationPhase + 0.02 * (if state == Countdown then 3.0 else 1.0);
      Step(p.(animationPhase := phase, size := p.baseSize + sin(phase) * (p.baseSize * 0.1)),
           false, false, p.y)
  }

  /** The guard of newPlayers.set: a loser that faded to 0 is not written back. */
  predicate Kept(p: Player, state: GameState, updated: Player) {
    !(state == Result && p.isLoser && updated.opacity <= 0.0)
  }

  predicate DrawsCover(c: Contacts, draws: map<int, Draw>) {
    c.entries.Keys <= draws.Keys
  }

  predicate AllIn(ids: seq<int>, m: map<int, Player>) {
    forall i :: 0 <= i < |ids| ==> ids[i] in m
  }

  // ---------------------------------------------------------------------------
  // The counting loop

  /** The forEach that counts the players that already have a rank, over ids. */
  function CountRanked(m: map<int, Player>, ids: seq<int>): nat
    requires AllIn(ids, m)
  {
    if ids == [] then 0
    else CountRanked(m, ids[..|ids| - 1]) + (if m[ids[|ids| - 1]].rank.Some? then 1 else 0)
  }

  ghost function RankedIds(c: Contacts): set<int> {
    set id | id in c.entries && c.entries[id].rank.Some?
  }

  ghost function RankedAmong(m: map<int, Player>, ids: seq<int>): set<int> {
    set id | id in ids && id in m && m[id].rank.Some?
  }

  /** Counting along a list of distinct keys counts the ranked keys in it. */
  lemma {:induction false} CountRankedCard(m: map<int, Player>, ids: seq<int>)
    requires AllIn(ids, m) && Distinct(ids)
    ensures CountRanked(m, ids) == |RankedAmong(m, ids)|
  {
    if ids != [] {
      var front, last := ids[..|ids| - 1], ids[|ids| - 1];
      DistinctInit(ids);
      CountRankedCard(m, front);
      if m[last].rank.Some? {
        assert RankedAmong(m, ids) == RankedAmong(m, front) + {last};
      } else {
        assert RankedAmong(m, ids) == RankedAmong(m, front);
      }
    }
  }

  /** finishedRacerCount before the frame is the number of ranked players. */
  lemma CountRankedIsRankedIds(c: Contacts)
    requires Valid(c)
    ensures AllIn(c.order, c.entries)
    ensures CountRanked(c.entries, c.order) == |RankedIds(c)|
  {
    assert AllIn(c.order, c.entries);
    CountRankedCard(c.entries, c.order);
    forall id | id in RankedIds(c) ensures id in RankedAmong(c.entries, c.order) {
      assert id in c.order;
    }
    assert RankedAmong(c.entries, c.order) == RankedIds(c);
  }

  // ---------------------------------------------------------------------------
  // The update loop

  /** The step of the player stored under id. */
  function StepOf(c: Contacts, state: GameState, draws: map<int, Draw>, sin: real -> real, id: int): Step
    requires id in c.entries && DrawsCover(c, draws)
  {
    StepPlayer(c.entries[id], state, draws[id], sin)
  }

  /** The entry the update loop leaves for a player: its update, unless it is a faded loser. */
  function StepResult(p: Player, state: GameState, d: Draw, sin: real -> real): (r: Player)
    ensures r.id == p.id && r.rank == p.rank
  {
    var s := StepPlayer(p, state, d, sin);
    if Kept(p, state, s.player) then s.player else p
  }

  /** racingCount once the forEach has visited ids. */
  function Racers(c: Contacts, state: GameState, draws: map<int, Draw>, sin: real -> real, ids: seq<int>): nat
    requires AllIn(ids, c.entries) && DrawsCover(c, draws)
  {
    if ids == [] then 0
    else Racers(c, state, draws, sin, ids[..|ids| - 1])
         + (if StepOf(c, state, draws, sin, ids[|ids| - 1]).racing then 1 else 0)
  }

  /** finishersThisFrame once the forEach has visited ids. */
  function Finishers(c: Contacts, state: GameState, draws: map<int, Draw>, sin: real -> real, ids: seq<int>): seq<Finisher>
    requires AllIn(ids, c.entries) && DrawsCover(c, draws)
  {
    if ids == [] then []
    else
      var s := StepOf(c, state, draws, sin, ids[|ids| - 1]);
      Finishers(c, state, draws, sin, ids[..|ids| - 1]) + (if s.finished then [FinisherOf(s)] else [])
  }

  function FinisherIds(fs: seq<Finisher>): (ids: seq<int>)
    ensures |ids| == |fs| && forall i :: 0 <= i < |fs| ==> ids[i] == fs[i].id
  {
    seq(|fs|, i requires 0 <= i < |fs| => fs[i].id)
  }

  /**
   * The finishers of distinct ids are distinct, each is the finishing step
   * of one of the ids, and every id whose step finished is among them.
   */
  lemma {:induction false} FinishersFacts(c: Contacts, state: GameState, draws: map<int, Draw>, sin: real -> real, ids: seq<int>)
    requires Valid(c) && DrawsCover(c, draws) && AllIn(ids, c.entries) && Distinct(ids)
    ensures var fs := Finishers(c, state, draws, sin, ids);
      && Distinct(FinisherIds(fs))
      && (forall i :: 0 <= i < |fs| ==>
            && fs[i].id in ids
            && StepOf(c, state, draws, sin, fs[i].id).finished
            && fs[i] == FinisherOf(StepOf(c, state, draws, sin, fs[i].id)))
      && (forall id :: id in ids && StepOf(c, state, draws, sin, id).finished ==> id in FinisherIds(fs))
  {
    if ids != [] {
      var front, id := ids[..|ids| - 1], ids[|ids| - 1];
      DistinctInit(ids);
      FinishersFacts(c, state, draws, sin, front);
      var prev := Finishers(c, state, draws, sin, front);
      var fs := Finishers(c, state, draws, sin, ids);
      assert forall x :: x in ids ==> x in front || x == id;
      var s := StepOf(c, state, draws, sin, id);
      if s.finished {
        assert s.player.id == id;
        assert fs == prev + [FinisherOf(s)];
        assert FinisherIds(fs) == FinisherIds(prev) + [id];
        assert id !in FinisherIds(prev);
        DistinctAppend(FinisherIds(prev), id);
      } else {
        assert fs == prev;
      }
    }
  }

  // ---------------------------------------------------------------------------
  // Sorting the finishers (Array.prototype.sort, which is stable)

  function KeyOf(f: Finisher, key: FinishKey): real {
    match key
    case SnappedY => f.y
    case CrossingY => f.crossY
  }

  predicate SortedBy(fs: seq<Finisher>, key: FinishKey) {
    forall i, j :: 0 <= i < j < |fs| ==> KeyOf(fs[i], key) <= KeyOf(fs[j], key)
  }

  /** Inserts f behind every element whose key does not exceed its own. */
  function Insert(s: seq<Finisher>, f: Finisher, key: FinishKey): (r: seq<Finisher>)
    ensures |r| == |s| + 1
  {
    if s == [] || KeyOf(s[|s| - 1], key) <= KeyOf(f, key) then s + [f]
    else Insert(s[..|s| - 1], f, key) + [s[|s| - 1]]
  }

  function SortFinishers(fs: seq<Finisher>, key: FinishKey): (r: seq<Finisher>)
    ensures |r| == |fs|
  {
    if fs == [] then []
    else Insert(SortFinishers(fs[..|fs| - 1], key), fs[|fs| - 1], key)
  }

  lemma {:induction false} InsertPermutes(s: seq<Finisher>, f: Finisher, key: FinishKey)
    ensures multiset(Insert(s, f, key)) == multiset(s) + multiset{f}
  {
    if s != [] && KeyOf(s[|s| - 1], key) > KeyOf(f, key) {
      InsertPermutes(s[..|s| - 1], f, key);
      assert s == s[..|s| - 1] + [s[|s| - 1]];
    }
  }

  /** The sort returns a permutation of the finishers. */
  lemma {:induction false} SortFinishersPermutes(fs: seq<Finisher>, key: FinishKey)
    ensures multiset(SortFinishers(fs, key)) == multiset(fs)
  {
    if fs != [] {
      SortFinishersPermutes(fs[..|fs| - 1], key);
      InsertPermutes(SortFinishers(fs[..|fs| - 1], key), fs[|fs| - 1], key);
      assert fs == fs[..|fs| - 1] + [fs[|fs| - 1]];
    }
  }

  lemma {:induction false} InsertSorted(s: seq<Finisher>, f: Finisher, key: FinishKey)
    requires SortedBy(s, key)
    ensures SortedBy(Insert(s, f, key), key)
    ensures forall i :: 0 <= i < |Insert(s, f, key)| ==> Insert(s, f, key)[i] in s || Insert(s, f, key)[i] == f
  {
    if s != [] && KeyOf(s[|s| - 1], key) > KeyOf(f, key) {
      var front := s[..|s| - 1];
      InsertSorted(front, f, key);
      var r := Insert(front, f, key);
      forall i | 0 <= i < |r| ensures KeyOf(r[i], key) <= KeyOf(s[|s| - 1], key) {
        assert r[i] in front || r[i] == f;
      }
    }
  }

  /** The sort returns its input in ascending key order. */
  lemma {:induction false} SortFinishersSorted(fs: seq<Finisher>, key: FinishKey)
    ensures SortedBy(SortFinishers(fs, key), key)
  {
    if fs != [] {
      SortFinishersSorted(fs[..|fs| - 1], key);
      InsertSorted(SortFinishers(fs[..|fs| - 1], key), fs[|fs| - 1], key);
    }
  }

  /** The finishers of fs whose key is k, in their order in fs. */
  function WithKey(fs: seq<Finisher>, key: FinishKey, k: real): seq<Finisher> {
    if fs == [] then []
    else WithKey(fs[..|fs| - 1], key, k) + (if KeyOf(fs[|fs| - 1], key) == k then [fs[|fs| - 1]] else [])
  }

  /** Inserting into a sorted list puts f behind every finisher with the same key. */
  lemma {:induction false} InsertStable(s: seq<Finisher>, f: Finisher, key: FinishKey, k: real)
    requires SortedBy(s, key)
    ensures WithKey(Insert(s, f, key), key, k) == WithKey(s, key, k) + (if KeyOf(f, key) == k then [f] else [])
  {
    if s == [] || KeyOf(s[|s| - 1], key) <= KeyOf(f, key) {
      assert (s + [f])[..|s|] == s;
    } else {
      var front, last := s[..|s| - 1], s[|s| - 1];
      assert SortedBy(front, key);
      InsertStable(front, f, key, k);
      var r := Insert(front, f, key);
      assert (r + [last])[..|r|] == r;
    }
  }

  /** The sort is stable: finishers with equal keys keep their relative order. */
  lemma {:induction false} SortFinishersStable(fs: seq<Finisher>, key: FinishKey, k: real)
    ensures WithKey(SortFinishers(fs, key), key, k) == WithKey(fs, key, k)
  {
    if fs != [] {
      var front, last := fs[..|fs| - 1], fs[|fs| - 1];
      SortFinishersStable(front, key, k);
      SortFinishersSorted(front, key);
      InsertStable(SortFinishers(front, key), last, key, k);
    }
  }

  /** Inserting a finisher with a new id keeps the ids distinct and adds that id. */
  lemma {:induction false} InsertIds(s: seq<Finisher>, f: Finisher, key: FinishKey)
    requires Distinct(FinisherIds(s)) && f.id !in FinisherIds(s)
    ensures Distinct(FinisherIds(Insert(s, f, key)))
    ensures forall id :: id in FinisherIds(Insert(s, f, key)) <==> id in FinisherIds(s) || id == f.id
  {
    var ids := FinisherIds(s);
    if s == [] || KeyOf(s[|s| - 1], key) <= KeyOf(f, key) {
      assert FinisherIds(s + [f]) == ids + [f.id];
      DistinctAppend(ids, f.id);
    } else {
      var front, last := s[..|s| - 1], s[|s| - 1];
      assert FinisherIds(front) == ids[..|s| - 1];
      assert ids == FinisherIds(front) + [last.id];
      DistinctInit(ids);
      InsertIds(front, f, key);
      var r := Insert(front, f, key);
      assert FinisherIds(r + [last]) == FinisherIds(r) + [last.id];
      assert last.id !in FinisherIds(r);
      DistinctAppend(FinisherIds(r), last.id);
    }
  }

  /** The sorted finishers have the same ids, still distinct. */
  lemma {:induction false} SortFinishersIds(fs: seq<Finisher>, key: FinishKey)
    requires Distinct(FinisherIds(fs))
    ensures Distinct(FinisherIds(SortFinishers(fs, key)))
    ensures forall id :: id in FinisherIds(SortFinishers(fs, key)) <==> id in FinisherIds(fs)
  {
    if fs != [] {
      var front, last := fs[..|fs| - 1], fs[|fs| - 1];
      var ids := FinisherIds(fs);
      assert FinisherIds(front) == ids[..|fs| - 1];
      assert ids == FinisherIds(front) + [last.id];
      DistinctInit(ids);
      SortFinishersIds(front, key);
      InsertIds(SortFinishers(front, key), last, key);
    }
  }

  // ---------------------------------------------------------------------------
  // One frame

  datatype FrameOut = FrameOut(players: Contacts, scheduleFinish: bool)

  /** The ids of this frame's finishers, in the order the sort leaves them. */
  function FinishOrder(c: Contacts, state: GameState, draws: map<int, Draw>, sin: real -> real, key: FinishKey): seq<int>
    requires Valid(c) && DrawsCover(c, draws)
  {
    FinisherIds(SortFinishers(Finishers(c, state, draws, sin, c.order), key))
  }

  /**
   * The registry a frame returns, entry by entry: each player is updated by
   * its branch of the forEach, and the j-th finisher in sort order then
   * gets rank (players ranked before the frame) + 1 + j.
   */
  function FrameEntries(c: Contacts, state: GameState, draws: map<int, Draw>, sin: real -> real, key: FinishKey): map<int, Player>
    requires Valid(c) && DrawsCover(c, draws)
  {
    var order := FinishOrder(c, state, draws, sin, key);
    var before := CountRanked(c.entries, c.order);
    map id | id in c.entries :: RankIn(StepResult(c.entries[id], state, draws[id], sin), order, before, id)
  }

  /** The player under key id once the finishers of order are ranked after the before players ranked already. */
  function RankIn(p: Player, order: seq<int>, before: nat, id: int): Player {
    if id in order then p.(rank := Some(before + 1 + IndexOf(order, id))) else p
  }

  /**
   * The setPlayers updater of animate, with the finishers sorted by key: the
   * new registry, and whether the RACE_FINISH timeout is set.
   */
  function Frame(c: Contacts, state: GameState, draws: map<int, Draw>, sin: real -> real, key: FinishKey): (r: FrameOut)
    requires Valid(c) && DrawsCover(c, draws)
    ensures r.players.order == c.order && r.players.entries.Keys == c.entries.Keys && Valid(r.players)
  {
    var order := FinishOrder(c, state, draws, sin, key);
    FrameOut(Contacts(c.order, FrameEntries(c, state, draws, sin, key)),
             && state == Racing
             && Racers(c, state, draws, sin, c.order) > 0
             && Size(c) > 0
             && CountRanked(c.entries, c.order) + |order| == Size(c))
  }

  /** The key the sort compares, for the step of a finisher. */
  function StepKey(s: Step, key: FinishKey): real {
    KeyOf(FinisherOf(s), key)
  }

  /** f is the record pushed for a player of c whose step finished. */
  predicate FinisherOfStep(c: Contacts, state: GameState, draws: map<int, Draw>, sin: real -> real, f: Finisher)
    requires DrawsCover(c, draws)
  {
    f.id in c.entries && StepOf(c, state, draws, sin, f.id).finished && f == FinisherOf(StepOf(c, state, draws, sin, f.id))
  }

  /** The sorted finishers carry distinct ids, and they are the ids whose step finished. */
  lemma SortedFinisherIds(c: Contacts, state: GameState, draws: map<int, Draw>, sin: real -> real, key: FinishKey)
    requires Valid(c) && DrawsCover(c, draws)
    ensures var sorted := SortFinishers(Finishers(c, state, draws, sin, c.order), key);
      && Distinct(FinisherIds(sorted))
      && (forall id :: id in c.entries ==>
            (id in FinisherIds(sorted) <==> StepOf(c, state, draws, sin, id).finished))
  {
    var fs := Finishers(c, state, draws, sin, c.order);
    FinishersFacts(c, state, draws, sin, c.order);
    SortFinishersIds(fs, key);
    forall id | id in c.entries ensures id in c.order {}
  }

  /** Each sorted finisher is the record of a finishing step of its own id. */
  lemma SortedFinisherSteps(c: Contacts, state: GameState, draws: map<int, Draw>, sin: real -> real, key: FinishKey)
    requires Valid(c) && DrawsCover(c, draws)
    ensures forall j :: 0 <= j < |SortFinishers(Finishers(c, state, draws, sin, c.order), key)| ==>
      FinisherOfStep(c, state, draws, sin, SortFinishers(Finishers(c, state, draws, sin, c.order), key)[j])
  {
    var fs := Finishers(c, state, draws, sin, c.order);
    var sorted := SortFinishers(fs, key);
    assert forall i :: 0 <= i < |fs| ==> FinisherOfStep(c, state, draws, sin, fs[i]) by {
      FinishersFacts(c, state, draws, sin, c.order);
    }
    SortFinishersPermutes(fs, key);
    forall j | 0 <= j < |sorted| ensures FinisherOfStep(c, state, draws, sin, sorted[j]) {
      assert sorted[j] in multiset(fs);
      var i :| 0 <= i < |fs| && fs[i] == sorted[j];
    }
  }

  /** The finish order holds exactly this frame's finishers, once each. */
  lemma FrameOrder(c: Contacts, state: GameState, draws: map<int, Draw>, sin: real -> real, key: FinishKey)
    requires Valid(c) && DrawsCover(c, draws)
    ensures var order := FinishOrder(c, state, draws, sin, key);
      && Distinct(order)
      && (forall id :: id in c.entries ==> (id in order <==> StepOf(c, state, draws, sin, id).finished))
      && (forall j :: 0 <= j < |order| ==> order[j] in c.entries)
  {
    SortedFinisherIds(c, state, draws, sin, key);
    SortedFinisherSteps(c, state, draws, sin, key);
  }

  /** The finish order ascends by the key the sort compares. */
  lemma FrameOrderAscending(c: Contacts, state: GameState, draws: map<int, Draw>, sin: real -> real, key: FinishKey)
    requires Valid(c) && DrawsCover(c, draws)
    ensures var order := FinishOrder(c, state, draws, sin, key);
      forall i, j :: 0 <= i < j < |order| ==>
        && order[i] in c.entries && order[j] in c.entries
        && StepKey(StepOf(c, state, draws, sin, order[i]), key) <= StepKey(StepOf(c, state, draws, sin, order[j]), key)
  {
    var fs := Finishers(c, state, draws, sin, c.order);
    var sorted := SortFinishers(fs, key);
    var order := FinishOrder(c, state, draws, sin, key);
    SortedFinisherSteps(c, state, draws, sin, key);
    SortFinishersSorted(fs, key);
    forall i, j | 0 <= i < j < |order|
      ensures order[i] in c.entries && order[j] in c.entries
      ensures StepKey(StepOf(c, state, draws, sin, order[i]), key) <= StepKey(StepOf(c, state, draws, sin, order[j]), key)
    {
      assert order[i] == sorted[i].id && order[j] == sorted[j].id;
      assert FinisherOfStep(c, state, draws, sin, sorted[i]) && FinisherOfStep(c, state, draws, sin, sorted[j]);
      assert KeyOf(sorted[i], key) <= KeyOf(sorted[j], key);
    }
  }

  /** One entry of the frame's result: finishers are ranked in finish order, the rest are as updated. */
  lemma FrameEntry(c: Contacts, state: GameState, draws: map<int, Draw>, sin: real -> real, key: FinishKey, id: int)
    requires Valid(c) && DrawsCover(c, draws) && id in c.entries
    ensures var order, out := FinishOrder(c, state, draws, sin, key), Frame(c, state, draws, sin, key).players.entries;
      && id in out
      && (id in order <==> StepOf(c, state, draws, sin, id).finished)
      && (id !in order ==> out[id] == StepResult(c.entries[id], state, draws[id], sin))
      && (id in order ==>
            out[id] == StepOf(c, state, draws, sin, id).player.(rank := Some(|RankedIds(c)| + 1 + IndexOf(order, id))))
  {
    var order := FinishOrder(c, state, draws, sin, key);
    assert id in order <==> StepOf(c, state, draws, sin, id).finished by {
      FrameOrder(c, state, draws, sin, key);
    }
    CountRankedIsRankedIds(c);
    if id in order {
      assert StepOf(c, state, draws, sin, id).racing;
    }
  }

  /**
   * The j-th finisher in sort order is left as its finishing step made it,
   * with rank (players ranked before the frame) + 1 + j.
   */
  lemma FrameFinished(c: Contacts, state: GameState, draws: map<int, Draw>, sin: real -> real, key: FinishKey, j: nat)
    requires Valid(c) && DrawsCover(c, draws) && j < |FinishOrder(c, state, draws, sin, key)|
    ensures var id := FinishOrder(c, state, draws, sin, key)[j];
      var out := Frame(c, state, draws, sin, key).players.entries;
      && id in c.entries && id in out
      && out[id] == StepOf(c, state, draws, sin, id).player.(rank := Some(|RankedIds(c)| + 1 + j))
  {
    var order := FinishOrder(c, state, draws, sin, key);
    assert order[j] in c.entries && IndexOf(order, order[j]) == j by {
      FrameOrder(c, state, draws, sin, key);
      IndexOfDistinct(order, j);
    }
    FrameEntry(c, state, draws, sin, key, order[j]);
  }

  /** A player that did not finish is left as its branch of the update made it. */
  lemma FrameUnfinished(c: Contacts, state: GameState, draws: map<int, Draw>, sin: real -> real, key: FinishKey, id: int)
    requires Valid(c) && DrawsCover(c, draws) && id in c.entries && !StepOf(c, state, draws, sin, id).finished
    ensures Frame(c, state, draws, sin, key).players.entries[id] == StepResult(c.entries[id], state, draws[id], sin)
  {
    FrameEntry(c, state, draws, sin, key, id);
  }

  /** A rank, once set, is never changed by a frame. */
  lemma FrameKeepsRank(c: Contacts, state: GameState, draws: map<int, Draw>, sin: real -> real, key: FinishKey, id: int)
    requires Valid(c) && DrawsCover(c, draws) && id in c.entries && c.entries[id].rank.Some?
    ensures Frame(c, state, draws, sin, key).players.entries[id].rank == c.entries[id].rank
  {
    FrameEntry(c, state, draws, sin, key, id);
  }

  /**
   * In RACING an unranked player either moves up by its old speed and keeps
   * a speed in [0.1, 4], or reaches the line: y snapped to size / 2, speed
   * 0, and a rank.
   */
  lemma FrameRace(c: Contacts, draws: map<int, Draw>, sin: real -> real, key: FinishKey, id: int)
    requires Valid(c) && DrawsCover(c, draws) && id in c.entries && c.entries[id].rank == None
    ensures var p, q := c.entries[id], Frame(c, Racing, draws, sin, key).players.entries[id];
      || (&& q.y == p.y - p.vy > p.size / 2.0 && 0.1 <= q.vy <= 4.0 && q.rank == None)
      || (&& p.y - p.vy <= p.size / 2.0 && q.y == p.size / 2.0 && q.vy == 0.0 && q.rank.Some?)
  {
    FrameEntry(c, Racing, draws, sin, key, id);
  }

  /**
   * In RESULT a winner's circle grows by 7.65%; a loser's shrinks by 10% and
   * fades by 0.05, except that once the fade would reach 0 the entry is no
   * longer written back and stays as it was.
   */
  lemma FrameResult(c: Contacts, draws: map<int, Draw>, sin: real -> real, key: FinishKey, id: int)
    requires Valid(c) && DrawsCover(c, draws) && id in c.entries
    ensures var p, q := c.entries[id], Frame(c, Result, draws, sin, key).players.entries[id];
      && (p.isWinner ==> q == if p.isLoser && p.opacity <= 0.0 then p else p.(size := p.size * 1.0765))
      && (!p.isWinner && p.isLoser ==>
            q == if p.opacity - 0.05 > 0.0 then p.(size := p.size * 0.9, opacity := p.opacity - 0.05) else p)
  {
    FrameEntry(c, Result, draws, sin, key, id);
  }

  /** Outside those two cases a player breathes: its phase advances, three times as fast in COUNTDOWN. */
  lemma FrameBreathes(c: Contacts, state: GameState, draws: map<int, Draw>, sin: real -> real, key: FinishKey, id: int)
    requires Valid(c) && DrawsCover(c, draws) && id in c.entries
    requires var p := c.entries[id];
      !(state == Result && (p.isWinner || p.isLoser)) && !(state == Racing && p.rank == None)
    ensures var p, q := c.entries[id], Frame(c, state, draws, sin, key).players.entries[id];
      && q.animationPhase == p.animationPhase + (if state == Countdown then 0.06 else 0.02)
      && q == p.(animationPhase := q.animationPhase, size := q.size)
  {
    FrameEntry(c, state, draws, sin, key, id);
  }

  // ---------------------------------------------------------------------------
  // Ranks across frames

  /** The ranks handed out so far are 1, 2, ..., k for the k ranked players, each once. */
  ghost predicate RanksConsecutive(c: Contacts) {
    && (forall id :: id in c.entries && c.entries[id].rank.Some? ==>
          1 <= c.entries[id].rank.value <= |RankedIds(c)|)
    && (forall a, b :: a in c.entries && b in c.entries && a != b && c.entries[a].rank.Some? ==>
          c.entries[a].rank != c.entries[b].rank)
  }

  /**
   * What a frame does to the ranks, stated on the registries before and
   * after: the players of order, distinct and unranked before, get the
   * ranks after the ranked ones in order; every other rank stays.
   */
  ghost predicate RanksAdvance(c: Contacts, out: Contacts, order: seq<int>) {
    && out.entries.Keys == c.entries.Keys
    && Distinct(order)
    && (forall j :: 0 <= j < |order| ==> order[j] in c.entries)
    && (forall id :: id in c.entries && id in order ==>
          c.entries[id].rank == None && out.entries[id].rank == Some(|RankedIds(c)| + 1 + IndexOf(order, id)))
    && (forall id :: id in c.entries && id !in order ==> out.entries[id].rank == c.entries[id].rank)
  }

  lemma FrameRanksAdvance(c: Contacts, state: GameState, draws: map<int, Draw>, sin: real -> real, key: FinishKey)
    requires Valid(c) && DrawsCover(c, draws)
    ensures RanksAdvance(c, Frame(c, state, draws, sin, key).players, FinishOrder(c, state, draws, sin, key))
  {
    FrameOrder(c, state, draws, sin, key);
    FrameNewRanks(c, state, draws, sin, key);
    FrameOldRanks(c, state, draws, sin, key);
  }

  lemma FrameNewRanks(c: Contacts, state: GameState, draws: map<int, Draw>, sin: real -> real, key: FinishKey)
    requires Valid(c) && DrawsCover(c, draws)
    ensures forall id :: id in c.entries && id in FinishOrder(c, state, draws, sin, key) ==>
      && c.entries[id].rank == None
      && Frame(c, state, draws, sin, key).players.entries[id].rank
         == Some(|RankedIds(c)| + 1 + IndexOf(FinishOrder(c, state, draws, sin, key), id))
  {
    forall id | id in c.entries && id in FinishOrder(c, state, draws, sin, key)
      ensures c.entries[id].rank == None
      ensures Frame(c, state, draws, sin, key).players.entries[id].rank
              == Some(|RankedIds(c)| + 1 + IndexOf(FinishOrder(c, state, draws, sin, key), id))
    {
      FrameEntry(c, state, draws, sin, key, id);
      assert StepOf(c, state, draws, sin, id).racing;
    }
  }

  lemma FrameOldRanks(c: Contacts, state: GameState, draws: map<int, Draw>, sin: real -> real, key: FinishKey)
    requires Valid(c) && DrawsCover(c, draws)
    ensures forall id :: id in c.entries && id !in FinishOrder(c, state, draws, sin, key) ==>
      Frame(c, state, draws, sin, key).players.entries[id].rank == c.entries[id].rank
  {
    forall id | id in c.entries && id !in FinishOrder(c, state, draws, sin, key)
      ensures Frame(c, state, draws, sin, key).players.entries[id].rank == c.entries[id].rank
    {
      FrameEntry(c, state, draws, sin, key, id);
    }
  }

  /** The players ranked afterwards are those ranked before and those of order. */
  lemma RanksAdvanceCount(c: Contacts, out: Contacts, order: seq<int>)
    requires RanksAdvance(c, out, order)
    ensures RankedIds(out) == RankedIds(c) + (set id | id in order)
    ensures RankedIds(c) !! (set id | id in order)
    ensures |RankedIds(out)| == |RankedIds(c)| + |order|
  {
    var inOrder := set id | id in order;
    forall id | id in RankedIds(out) ensures id in RankedIds(c) + inOrder {
      assert id in c.entries;
    }
    forall id | id in RankedIds(c) + inOrder ensures id in RankedIds(out) {
      if id in inOrder {
        var j :| 0 <= j < |order| && order[j] == id;
      }
    }
    assert RankedIds(out) == RankedIds(c) + inOrder;
    forall id | id in inOrder ensures id !in RankedIds(c) {
      var j :| 0 <= j < |order| && order[j] == id;
    }
    DistinctCard(order);
  }

  /** Handing out ranks that way keeps them consecutive. */
  lemma RanksAdvanceConsecutive(c: Contacts, out: Contacts, order: seq<int>)
    requires RanksAdvance(c, out, order) && RanksConsecutive(c)
    ensures RanksConsecutive(out)
  {
    RanksAdvanceCount(c, out, order);
    forall a, b | a in out.entries && b in out.entries && a != b && out.entries[a].rank.Some?
      ensures out.entries[a].rank != out.entries[b].rank
    {
      if a in order && b in order {
        assert order[IndexOf(order, a)] != order[IndexOf(order, b)];
      }
    }
  }

  /** The players ranked after a frame are those ranked before and this frame's finishers. */
  lemma FrameRankedIds(c: Contacts, state: GameState, draws: map<int, Draw>, sin: real -> real, key: FinishKey)
    requires Valid(c) && DrawsCover(c, draws)
    ensures var order := FinishOrder(c, state, draws, sin, key);
      && RankedIds(Frame(c, state, draws, sin, key).players) == RankedIds(c) + (set id | id in order)
      && RankedIds(c) !! (set id | id in order)
      && |RankedIds(Frame(c, state, draws, sin, key).players)| == |RankedIds(c)| + |order|
  {
    FrameRanksAdvance(c, state, draws, sin, key);
    RanksAdvanceCount(c, Frame(c, state, draws, sin, key).players, FinishOrder(c, state, draws, sin, key));
  }

  /** A frame keeps the ranks consecutive. */
  lemma FrameRanksConsecutive(c: Contacts, state: GameState, draws: map<int, Draw>, sin: real -> real, key: FinishKey)
    requires Valid(c) && DrawsCover(c, draws) && RanksConsecutive(c)
    ensures RanksConsecutive(Frame(c, state, draws, sin, key).players)
  {
    FrameRanksAdvance(c, state, draws, sin, key);
    RanksAdvanceConsecutive(c, Frame(c, state, draws, sin, key).players, FinishOrder(c, state, draws, sin, key));
  }

  /** A registry with the same keys and the same ranks as a consecutive one is consecutive too. */
  lemma SameRanksConsecutive(c: Contacts, r: Contacts)
    requires r.entries.Keys == c.entries.Keys
    requires forall id :: id in c.entries ==> r.entries[id].rank == c.entries[id].rank
    requires RanksConsecutive(c)
    ensures RanksConsecutive(r)
  {
    forall k ensures k in RankedIds(r) <==> k in RankedIds(c) {
    }
    assert RankedIds(r) == RankedIds(c);
  }

  /** Adding an unranked player under a new key keeps the ranks consecutive. */
  lemma AddUnrankedConsecutive(c: Contacts, r: Contacts, id: int)
    requires id !in c.entries && r.entries.Keys == c.entries.Keys + {id} && r.entries[id].rank == None
    requires forall k :: k in c.entries ==> r.entries[k].rank == c.entries[k].rank
    requires RanksConsecutive(c)
    ensures RanksConsecutive(r)
  {
    forall k ensures k in RankedIds(r) <==> k in RankedIds(c) {
    }
    assert RankedIds(r) == RankedIds(c);
  }

  /** After a frame every player is ranked exactly when the ranked count reaches the registry size. */
  lemma RanksAdvanceAllRanked(c: Contacts, out: Contacts, order: seq<int>)
    requires WellFormed(c) && RanksAdvance(c, out, order)
    ensures (|RankedIds(c)| + |order| == Size(c)) <==>
            forall id :: id in out.entries ==> out.entries[id].rank.Some?
  {
    RanksAdvanceCount(c, out, order);
    SizeIsKeyCount(c);
    var ranked := RankedIds(out);
    assert ranked <= c.entries.Keys;
    if |ranked| == Size(c) {
      SubsetOfSameSize(ranked, c.entries.Keys);
      assert forall id :: id in out.entries ==> id in ranked;
    }
    if forall id :: id in out.entries ==> out.entries[id].rank.Some? {
      assert c.entries.Keys <= ranked;
      assert ranked == c.entries.Keys;
    }
  }

  /**
   * The RACE_FINISH timeout is set exactly when the state is RACING, someone
   * was still racing at the start of the frame, and the registry is not
   * empty and has every player ranked after it.
   */
  lemma FrameSchedule(c: Contacts, state: GameState, draws: map<int, Draw>, sin: real -> real, key: FinishKey)
    requires Valid(c) && DrawsCover(c, draws)
    ensures var out := Frame(c, state, draws, sin, key);
      out.scheduleFinish <==>
        && state == Racing && Racers(c, state, draws, sin, c.order) > 0 && Size(c) > 0
        && forall id :: id in out.players.entries ==> out.players.entries[id].rank.Some?
  {
    CountRankedIsRankedIds(c);
    FrameRanksAdvance(c, state, draws, sin, key);
    RanksAdvanceAllRanked(c, Frame(c, state, draws, sin, key).players, FinishOrder(c, state, draws, sin, key));
  }

  lemma SubsetOfSameSize(a: set<int>, b: set<int>)
    requires a <= b && |a| == |b|
    ensures a == b
  {
    assert |b - a| == |b| - |a|;
  }

  // ---------------------------------------------------------------------------
  // The updater as the source runs it

  /** The counting forEach: finishedRacerCount starts as the number of ranked players. */
  method CountFinished(c: Contacts) returns (finishedRacerCount: nat)
    requires Valid(c)
    ensures finishedRacerCount == |RankedIds(c)|
  {
    finishedRacerCount := 0;
    var i := 0;
    while i < |c.order|
      invariant i <= |c.order|
      invariant finishedRacerCount == CountRanked(c.entries, c.order[..i])
    {
      assert c.order[..i + 1][..i] == c.order[..i];
      if c.entries[c.order[i]].rank.Some? {
        finishedRacerCount := finishedRacerCount + 1;
      }
      i := i + 1;
    }
    assert c.order[..i] == c.order;
    CountRankedIsRankedIds(c);
  }

  /** newPlayers once the updating forEach has visited the first i players. */
  ghost predicate UpdatedUpTo(c: Contacts, state: GameState, draws: map<int, Draw>, sin: real -> real,
                              newPlayers: map<int, Player>, i: nat)
    requires Valid(c) && DrawsCover(c, draws)
  {
    && i <= |c.order|
    && newPlayers.Keys == c.entries.Keys
    && (forall k :: 0 <= k < i ==>
          newPlayers[c.order[k]] == StepResult(c.entries[c.order[k]], state, draws[c.order[k]], sin))
    && (forall k :: i <= k < |c.order| ==> newPlayers[c.order[k]] == c.entries[c.order[k]])
  }

  lemma UpdatedStep(c: Contacts, state: GameState, draws: map<int, Draw>, sin: real -> real,
                    newPlayers: map<int, Player>, i: nat)
    requires Valid(c) && DrawsCover(c, draws) && i < |c.order| && UpdatedUpTo(c, state, draws, sin, newPlayers, i)
    ensures var id := c.order[i];
      var s := StepOf(c, state, draws, sin, id);
      && newPlayers[id] == c.entries[id]
      && UpdatedUpTo(c, state, draws, sin,
                     if Kept(c.entries[id], state, s.player) then newPlayers[id := s.player] else newPlayers, i + 1)
  {
    var id := c.order[i];
    var s := StepOf(c, state, draws, sin, id);
    var next := if Kept(c.entries[id], state, s.player) then newPlayers[id := s.player] else newPlayers;
    forall k | 0 <= k < |c.order| && k != i ensures next[c.order[k]] == newPlayers[c.order[k]] {
      DistinctAt(c.order, k, i);
    }
  }

  lemma UpdatedAll(c: Contacts, state: GameState, draws: map<int, Draw>, sin: real -> real, newPlayers: map<int, Player>)
    requires Valid(c) && DrawsCover(c, draws) && UpdatedUpTo(c, state, draws, sin, newPlayers, |c.order|)
    ensures newPlayers.Keys == c.entries.Keys
    ensures forall id :: id in c.entries ==> newPlayers[id] == StepResult(c.entries[id], state, draws[id], sin)
  {
    forall id | id in c.entries ensures newPlayers[id] == StepResult(c.entries[id], state, draws[id], sin) {
      var k :| 0 <= k < |c.order| && c.order[k] == id;
    }
  }

  /** Visiting one more player: it may count as racing and may join the finishers. */
  lemma CollectStep(c: Contacts, state: GameState, draws: map<int, Draw>, sin: real -> real, i: nat)
    requires Valid(c) && DrawsCover(c, draws) && i < |c.order|
    ensures var s := StepOf(c, state, draws, sin, c.order[i]);
      && Racers(c, state, draws, sin, c.order[..i + 1])
         == Racers(c, state, draws, sin, c.order[..i]) + (if s.racing then 1 else 0)
      && Finishers(c, state, draws, sin, c.order[..i + 1])
         == Finishers(c, state, draws, sin, c.order[..i]) + (if s.finished then [FinisherOf(s)] else [])
  {
    assert c.order[..i + 1][..i] == c.order[..i];
  }

  /**
   * The updating forEach over the copy of the registry: every player gets
   * its StepResult, the racers are counted and the finishers collected in
   * registry order.
   */
  method UpdatePlayers(c: Contacts, state: GameState, draws: map<int, Draw>, sin: real -> real)
    returns (newPlayers: map<int, Player>, racingCount: nat, finishersThisFrame: seq<Finisher>)
    requires Valid(c) && DrawsCover(c, draws)
    ensures newPlayers.Keys == c.entries.Keys
    ensures forall id :: id in c.entries ==> newPlayers[id] == StepResult(c.entries[id], state, draws[id], sin)
    ensures racingCount == Racers(c, state, draws, sin, c.order)
    ensures finishersThisFrame == Finishers(c, state, draws, sin, c.order)
  {
    newPlayers := c.entries;
    racingCount := 0;
    finishersThisFrame := [];
    var i := 0;
    while i < |c.order|
      invariant UpdatedUpTo(c, state, draws, sin, newPlayers, i)
      invariant racingCount == Racers(c, state, draws, sin, c.order[..i])
      invariant finishersThisFrame == Finishers(c, state, draws, sin, c.order[..i])
    {
      var id := c.order[i];
      UpdatedStep(c, state, draws, sin, newPlayers, i);
      CollectStep(c, state, draws, sin, i);
      var player := newPlayers[id];
      var updated := StepPlayer(player, state, draws[id], sin);
      if updated.racing {
        racingCount := racingCount + 1;
      }
      if updated.finished {
        finishersThisFrame := finishersThisFrame + [FinisherOf(updated)];
      }
      if Kept(player, state, updated.player) {
        newPlayers := newPlayers[id := updated.player];
      }
      i := i + 1;
    }
    assert c.order[..i] == c.order;
    UpdatedAll(c, state, draws, sin, newPlayers);
  }

  /** Every finisher of sorted is a distinct key of m that has no rank yet. */
  ghost predicate Rankable(m: map<int, Player>, sorted: seq<Finisher>) {
    && Distinct(FinisherIds(sorted))
    && forall k :: 0 <= k < |sorted| ==> sorted[k].id in m && m[sorted[k].id].rank == None
  }

  /**
   * The for-of loop over the sorted finishers: an entry that is present and
   * unranked gets rankToAssign, which then advances. No key and no set rank
   * changes; when every finisher is rankable, the j-th one gets rank
   * finishedRacerCount + 1 + j.
   */
  method RankFinishers(stepped: map<int, Player>, sorted: seq<Finisher>, finishedRacerCount: nat)
    returns (newPlayers: map<int, Player>)
    ensures newPlayers.Keys == stepped.Keys
    ensures forall id :: id in stepped && stepped[id].rank.Some? ==> newPlayers[id] == stepped[id]
    ensures forall id :: id in stepped && id !in FinisherIds(sorted) ==> newPlayers[id] == stepped[id]
    ensures Rankable(stepped, sorted) ==> RankedOnTop(stepped, sorted, finishedRacerCount, newPlayers)
  {
    ghost var order := FinisherIds(sorted);
    ghost var rankable := Rankable(stepped, sorted);
    newPlayers := stepped;
    var rankToAssign := finishedRacerCount + 1;
    var k := 0;
    while k < |sorted|
      invariant k <= |sorted|
      invariant newPlayers.Keys == stepped.Keys
      invariant forall id :: id in stepped && stepped[id].rank.Some? ==> newPlayers[id] == stepped[id]
      invariant forall id :: id in stepped && id !in order[..k] ==> newPlayers[id] == stepped[id]
      invariant rankable ==> rankToAssign == finishedRacerCount + 1 + k
      invariant rankable ==> forall j :: 0 <= j < k ==>
        newPlayers[sorted[j].id] == stepped[sorted[j].id].(rank := Some(finishedRacerCount + 1 + j))
    {
      var id := sorted[k].id;
      assert forall x :: x in order[..k + 1] <==> x in order[..k] || x == id;
      if rankable {
        forall j | 0 <= j < k ensures order[j] != id {
          DistinctAt(order, j, k);
        }
      }
      if id in newPlayers && newPlayers[id].rank == None {
        newPlayers := newPlayers[id := newPlayers[id].(rank := Some(rankToAssign))];
        rankToAssign := rankToAssign + 1;
      }
      k := k + 1;
    }
    assert order[..k] == order;
  }

  /** Every entry of m is the StepResult of the player stored under its key in c. */
  ghost predicate SteppedAll(c: Contacts, state: GameState, draws: map<int, Draw>, sin: real -> real, m: map<int, Player>)
    requires DrawsCover(c, draws)
  {
    && m.Keys == c.entries.Keys
    && forall id :: id in c.entries ==> m[id] == StepResult(c.entries[id], state, draws[id], sin)
  }

  /** After the update loop every sorted finisher can be ranked. */
  lemma SteppedRankable(c: Contacts, state: GameState, draws: map<int, Draw>, sin: real -> real, key: FinishKey,
                        stepped: map<int, Player>)
    requires Valid(c) && DrawsCover(c, draws) && SteppedAll(c, state, draws, sin, stepped)
    ensures Rankable(stepped, SortFinishers(Finishers(c, state, draws, sin, c.order), key))
  {
    var sorted := SortFinishers(Finishers(c, state, draws, sin, c.order), key);
    var order := FinishOrder(c, state, draws, sin, key);
    FrameOrder(c, state, draws, sin, key);
    forall k | 0 <= k < |sorted| ensures sorted[k].id in stepped && stepped[sorted[k].id].rank == None {
      assert order[k] == sorted[k].id;
      assert StepOf(c, state, draws, sin, order[k]).racing;
    }
  }

  /**
   * ranked is stepped with the j-th of sorted given rank before + 1 + j and
   * every key outside sorted left alone.
   */
  ghost predicate RankedOnTop(stepped: map<int, Player>, sorted: seq<Finisher>, before: nat, ranked: map<int, Player>) {
    && ranked.Keys == stepped.Keys
    && (forall id :: id in stepped && id !in FinisherIds(sorted) ==> ranked[id] == stepped[id])
    && (forall j :: 0 <= j < |sorted| && sorted[j].id in stepped ==>
          sorted[j].id in ranked && ranked[sorted[j].id] == stepped[sorted[j].id].(rank := Some(before + 1 + j)))
  }

  /** target holds RankIn of each stepped player, with the order of sorted. */
  ghost predicate RanksTarget(stepped: map<int, Player>, sorted: seq<Finisher>, before: nat, target: map<int, Player>) {
    && target.Keys == stepped.Keys
    && forall id :: id in target ==> target[id] == RankIn(stepped[id], FinisherIds(sorted), before, id)
  }

  /** Ranking the sorted finishers on top of stepped is RankIn applied to every entry. */
  lemma RankedMatches(stepped: map<int, Player>, sorted: seq<Finisher>, before: nat,
                      ranked: map<int, Player>, target: map<int, Player>)
    requires Rankable(stepped, sorted)
    requires RankedOnTop(stepped, sorted, before, ranked)
    requires RanksTarget(stepped, sorted, before, target)
    ensures ranked == target
  {
    var order := FinisherIds(sorted);
    forall id | id in target ensures ranked[id] == target[id] {
      if id in order {
        var j := IndexOf(order, id);
        assert sorted[j].id == id;
      }
    }
  }

  /** Ranking the sorted finishers on top of the updated entries gives the frame's registry. */
  lemma RankedIsFrame(c: Contacts, state: GameState, draws: map<int, Draw>, sin: real -> real, key: FinishKey,
                      stepped: map<int, Player>, ranked: map<int, Player>)
    requires Valid(c) && DrawsCover(c, draws) && SteppedAll(c, state, draws, sin, stepped)
    requires RankedOnTop(stepped, SortFinishers(Finishers(c, state, draws, sin, c.order), key), |RankedIds(c)|, ranked)
    ensures ranked == FrameEntries(c, state, draws, sin, key)
  {
    var sorted := SortFinishers(Finishers(c, state, draws, sin, c.order), key);
    var target := FrameEntries(c, state, draws, sin, key);
    SteppedRankable(c, state, draws, sin, key, stepped);
    assert RanksTarget(stepped, sorted, |RankedIds(c)|, target) by {
      CountRankedIsRankedIds(c);
    }
    RankedMatches(stepped, sorted, |RankedIds(c)|, ranked, target);
  }

  /** The frame's result, taken apart into the pieces the updater computes one by one. */
  lemma FrameParts(c: Contacts, state: GameState, draws: map<int, Draw>, sin: real -> real, key: FinishKey)
    requires Valid(c) && DrawsCover(c, draws)
    ensures Frame(c, state, draws, sin, key).players == Contacts(c.order, FrameEntries(c, state, draws, sin, key))
    ensures |FrameEntries(c, state, draws, sin, key)| == Size(c)
    ensures Frame(c, state, draws, sin, key).scheduleFinish <==>
      (&& state == Racing
       && Racers(c, state, draws, sin, c.order) > 0
       && |FrameEntries(c, state, draws, sin, key)| > 0
       && |RankedIds(c)| + |Finishers(c, state, draws, sin, c.order)| == |FrameEntries(c, state, draws, sin, key)|)
  {
    CountRankedIsRankedIds(c);
    SizeIsKeyCount(c);
    assert FrameEntries(c, state, draws, sin, key).Keys == c.entries.Keys;
  }

  /**
   * The setPlayers updater of animate with its three loops, except that the
   * finishers are sorted by the y at which they crossed the line rather than
   * by the snapped y (the correction of the misranking shown by
   * SnappedSortMisranks).
   */
  method AnimateFrame(c: Contacts, state: GameState, draws: map<int, Draw>, sin: real -> real)
    returns (next: Contacts, scheduleFinish: bool)
    requires Valid(c) && DrawsCover(c, draws)
    ensures FrameOut(next, scheduleFinish) == Frame(c, state, draws, sin, CrossingY)
  {
    var finishedRacerCount := CountFinished(c);
    var newPlayers, racingCount, finishersThisFrame := UpdatePlayers(c, state, draws, sin);
    ghost var stepped := newPlayers;
    if |finishersThisFrame| > 0 {
      var sorted := SortFinishers(finishersThisFrame, CrossingY);
      SteppedRankable(c, state, draws, sin, CrossingY, stepped);
      newPlayers := RankFinishers(newPlayers, sorted, finishedRacerCount);
      finishedRacerCount := finishedRacerCount + |finishersThisFrame|;
    }
    RankedIsFrame(c, state, draws, sin, CrossingY, stepped, newPlayers);
    FrameParts(c, state, draws, sin, CrossingY);
    scheduleFinish := state == Racing && racingCount > 0 && |newPlayers| > 0 && finishedRacerCount == |newPlayers|;
    next := Contacts(c.order, newPlayers);
  }


  // ---------------------------------------------------------------------------
  // The sort key

  /**
   * Two racers in the last frame of a race: player 0 (a 130-unit circle at
   * y = 66, speed 4) crosses its line at y = 62, player 1 (a 126-unit circle
   * at y = 63.5, speed 1) at y = 62.5. Both sizes lie in the breathing range
   * of a 130.345 circle, and neither draw boosts.
   */
  function TwoFinishers(): (c: Contacts)
    ensures Valid(c)
  {
    var a := Player(0, 100.0, 66.0, false, false, None, 0.0, 100.0, 1.0, 130.0, BaseCircleSize, 0.0, 4.0, None);
    var b := Player(1, 200.0, 63.5, false, false, None, 0.0, 100.0, 1.0, 126.0, BaseCircleSize, 0.0, 1.0, None);
    var c := Contacts([0, 1], map[0 := a, 1 := b]);
    assert Apart(c.order, 0, 1);
    c
  }

  const NoBoost: map<int, Draw> := map[0 := Draw(0.5, 0.5), 1 := Draw(0.5, 0.5)]

  /**
   * Sorting on the y of the pushed records, which were already snapped to
   * size / 2, ranks the smaller circle first: player 0 crossed the line
   * further up, yet player 1 gets rank 1. Sorting on the crossing y ranks
   * them the way they crossed.
   */
  lemma SnappedSortMisranks(sin: real -> real)
    ensures StepOf(TwoFinishers(), Racing, NoBoost, sin, 0).crossY < StepOf(TwoFinishers(), Racing, NoBoost, sin, 1).crossY
    ensures FinishOrder(TwoFinishers(), Racing, NoBoost, sin, SnappedY) == [1, 0]
    ensures FinishOrder(TwoFinishers(), Racing, NoBoost, sin, CrossingY) == [0, 1]
  {
    TwoFinishersPushed(sin);
    var f0, f1 := Finisher(0, 65.0, 62.0), Finisher(1, 63.0, 62.5);
    assert [f0][..0] == [] && [f0, f1][..1] == [f0];
    assert Insert([f0], f1, SnappedY) == Insert([], f1, SnappedY) + [f0];
    assert SortFinishers([f0, f1], SnappedY) == [f1, f0];
    assert SortFinishers([f0, f1], CrossingY) == [f0, f1];
  }

  /** Both players finish, and the forEach pushes them in registry order. */
  lemma TwoFinishersPushed(sin: real -> real)
    ensures StepOf(TwoFinishers(), Racing, NoBoost, sin, 0).crossY == 62.0
    ensures StepOf(TwoFinishers(), Racing, NoBoost, sin, 1).crossY == 62.5
    ensures Finishers(TwoFinishers(), Racing, NoBoost, sin, TwoFinishers().order)
         == [Finisher(0, 65.0, 62.0), Finisher(1, 63.0, 62.5)]
  {
    var c := TwoFinishers();
    var s0, s1 := StepOf(c, Racing, NoBoost, sin, 0), StepOf(c, Racing, NoBoost, sin, 1);
    assert s0.finished && FinisherOf(s0) == Finisher(0, 65.0, 62.0);
    assert s1.finished && FinisherOf(s1) == Finisher(1, 63.0, 62.5);
    assert c.order == [0, 1] && c.order[..1] == [0] && [0][..0] == [];
    assert Finishers(c, Racing, NoBoost, sin, [0]) == [FinisherOf(s0)];
  }
}
