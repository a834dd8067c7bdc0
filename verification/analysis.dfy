/**
 The fold of `analyzeGames` over the game records, and an independent reference
 for what it must compute: the list of plays attributed to each colour, from
 which every tally and every colour total can be counted directly.
 */
module Analysis {
  import opened Wrappers
  import opened Games
  import opened Tallies

  /** `winLossStats` of one colour. */
  datatype WinLoss = WinLoss(wins: nat, losses: nat)

  /** The fold's state: `openingCounts` and `winLossStats` of both colours. */
  datatype Tally = Tally(white: seq<OpeningStat>, black: seq<OpeningStat>, whiteStats: WinLoss, blackStats: WinLoss)
  {
    function Openings(c: Color): seq<OpeningStat>
    {
      if c == White then white else black
    }

    function Stats(c: Color): WinLoss
    {
      if c == White then whiteStats else blackStats
    }
  }

  const Empty: Tally := Tally([], [], WinLoss(0, 0), WinLoss(0, 0))

  /** Adds a win or a loss to a colour total; an undecided game adds neither. */
  function Record(w: WinLoss, o: Outcome): (r: WinLoss)
    ensures r.wins == w.wins + (if o == Won then 1 else 0)
    ensures r.losses == w.losses + (if o == Lost then 1 else 0)
  {
    match o
    case Won => w.(wins := w.wins + 1)
    case Lost => w.(losses := w.losses + 1)
    case Undecided => w
  }

  /** Both colours' tallies are well formed and each colour total is the sum of its openings. */
  predicate Consistent(t: Tally)
  {
    forall c: Color ::
      && WellFormed(t.Openings(c))
      && t.Stats(c).wins == SumWins(t.Openings(c))
      && t.Stats(c).losses == SumLosses(t.Openings(c))
  }

  /** One iteration of the `forEach`: a skipped record leaves the state as it was; an attributed
      one changes only its own colour, and keeps the state consistent. */
  function Step(t: Tally, g: Game, target: string): (r: Tally)
    ensures Attribution(g, target).None? ==> r == t
    ensures forall c: Color :: Attribution(g, target) != Some(c) ==>
      r.Openings(c) == t.Openings(c) && r.Stats(c) == t.Stats(c)
    ensures Consistent(t) ==> Consistent(r)
  {
    match Attribution(g, target)
    case None => t
    case Some(c) =>
      var key := OpeningKey(g);
      var o := OutcomeFor(g, c);
      assert Consistent(t) ==> WellFormed(Bump(t.Openings(c), key, o)) by {
        if Consistent(t) {
          BumpWellFormed(t.Openings(c), key, o);
        }
      }
      if c == White then
        t.(white := Bump(t.white, key, o), whiteStats := Record(t.whiteStats, o))
      else
        t.(black := Bump(t.black, key, o), blackStats := Record(t.blackStats, o))
  }

  /** What `Step` does to one colour, in one place for the proofs below. */
  lemma StepEffect(t: Tally, g: Game, target: string, c: Color)
    ensures Step(t, g, target).Openings(c) ==
      if Attribution(g, target) == Some(c) then Bump(t.Openings(c), OpeningKey(g), OutcomeFor(g, c)) else t.Openings(c)
    ensures Step(t, g, target).Stats(c) ==
      if Attribution(g, target) == Some(c) then Record(t.Stats(c), OutcomeFor(g, c)) else t.Stats(c)
  {
  }

  /** The `forEach` over the records, in order, from the empty state. */
  function Fold(games: seq<Game>, target: string): (t: Tally)
    ensures Consistent(t)
    decreases |games|
  {
    if games == [] then Empty
    else Step(Fold(games[..|games| - 1], target), games[|games| - 1], target)
  }

  /** What one attributed record contributes to its colour: its opening key and its outcome. */
  datatype Play = Play(key: string, outcome: Outcome)

  /** The reference: the plays attributed to colour `c`, in record order. */
  function Plays(games: seq<Game>, target: string, c: Color): seq<Play>
    decreases |games|
  {
    if games == [] then []
    else
      var g := games[|games| - 1];
      Plays(games[..|games| - 1], target, c)
        + if Attribution(g, target) == Some(c) then [Play(OpeningKey(g), OutcomeFor(g, c))] else []
  }

  function WithKey(ps: seq<Play>, key: string): seq<Play>
  {
    if ps == [] then []
    else WithKey(ps[..|ps| - 1], key) + if ps[|ps| - 1].key == key then [ps[|ps| - 1]] else []
  }

  function WithOutcome(ps: seq<Play>, o: Outcome): seq<Play>
  {
    if ps == [] then []
    else WithOutcome(ps[..|ps| - 1], o) + if ps[|ps| - 1].outcome == o then [ps[|ps| - 1]] else []
  }

  /** The tally opening `key` must have, counted straight from the plays; none when never played. */
  function Expected(ps: seq<Play>, key: string): Option<OpeningStat>
  {
    var k := WithKey(ps, key);
    if k == [] then None else Some(OpeningStat(key, |k|, |WithOutcome(k, Won)|, |WithOutcome(k, Lost)|))
  }

  /** The opening keys of the plays, in order. */
  function Keys(ps: seq<Play>): (r: seq<string>)
    ensures |r| == |ps|
    ensures forall i :: 0 <= i < |ps| ==> r[i] == ps[i].key
  {
    seq(|ps|, i requires 0 <= i < |ps| => ps[i].key)
  }

  /** The distinct elements of `ks` in order of first occurrence. */
  function FirstSeen(ks: seq<string>): (r: seq<string>)
    ensures forall k :: k in r <==> k in ks
    ensures forall i, j :: 0 <= i < j < |r| ==> r[i] != r[j]
  {
    if ks == [] then []
    else
      var p := FirstSeen(ks[..|ks| - 1]);
      var k := ks[|ks| - 1];
      assert ks == ks[..|ks| - 1] + [k];
      if k in p then p else p + [k]
  }

  lemma AppendOne<T>(s: seq<T>, x: T)
    ensures (s + [x])[..|s|] == s && (s + [x])[|s|] == x
  {
  }

  lemma {:induction false} WithKeyAppend(ps: seq<Play>, p: Play, key: string)
    ensures WithKey(ps + [p], key) == WithKey(ps, key) + if p.key == key then [p] else []
  {
    AppendOne(ps, p);
  }

  lemma {:induction false} WithOutcomeAppend(ps: seq<Play>, p: Play, o: Outcome)
    ensures WithOutcome(ps + [p], o) == WithOutcome(ps, o) + if p.outcome == o then [p] else []
  {
    AppendOne(ps, p);
  }

  /** A play under another key leaves the expected tally of `key` alone. */
  lemma ExpectedAppendOther(ps: seq<Play>, p: Play, key: string)
    requires p.key != key
    ensures Expected(ps + [p], key) == Expected(ps, key)
  {
    WithKeyAppend(ps, p, key);
    assert WithKey(ps + [p], key) == WithKey(ps, key);
  }

  /** A play under `key` credits the expected tally of `key` once, starting from zero when new. */
  lemma ExpectedAppendSame(ps: seq<Play>, p: Play, key: string)
    requires p.key == key
    ensures Expected(ps + [p], key) ==
      Some(Credit(if Expected(ps, key).Some? then Expected(ps, key).value else OpeningStat(key, 0, 0, 0), p.outcome))
  {
    var k := WithKey(ps, key);
    WithKeyAppend(ps, p, key);
    assert WithKey(ps + [p], key) == k + [p];
    WithOutcomeAppend(k, p, Won);
    WithOutcomeAppend(k, p, Lost);
    var w := |WithOutcome(k, Won)|;
    var l := |WithOutcome(k, Lost)|;
    assert |WithOutcome(k + [p], Won)| == w + (if p.outcome == Won then 1 else 0);
    assert |WithOutcome(k + [p], Lost)| == l + (if p.outcome == Lost then 1 else 0);
    var e := OpeningStat(key, |k|, w, l);
    assert Expected(ps + [p], key) == Some(Credit(e, p.outcome));
    if k == [] {
      assert e == OpeningStat(key, 0, 0, 0);
    } else {
      assert Expected(ps, key) == Some(e);
    }
  }

  /** Main correctness statement: after the fold, the tally stored under any key of either colour
      is exactly the number of games, wins and losses of that colour with that opening, and a key
      is present exactly when such a game exists. */
  lemma {:induction false} FoldLookup(games: seq<Game>, target: string, c: Color, key: string)
    ensures Lookup(Fold(games, target).Openings(c), key) == Expected(Plays(games, target, c), key)
    decreases |games|
  {
    if games != [] {
      var init := games[..|games| - 1];
      var g := games[|games| - 1];
      var t0 := Fold(init, target);
      assert Fold(games, target) == Step(t0, g, target);
      FoldLookup(init, target, c, key);
      var ps := Plays(init, target, c);
      StepEffect(t0, g, target, c);
      if Attribution(g, target) == Some(c) {
        var p := Play(OpeningKey(g), OutcomeFor(g, c));
        assert Plays(games, target, c) == ps + [p];
        BumpLookup(t0.Openings(c), p.key, p.outcome, key);
        if p.key == key {
          ExpectedAppendSame(ps, p, key);
        } else {
          ExpectedAppendOther(ps, p, key);
        }
      } else {
        assert Plays(games, target, c) == ps;
      }
    }
  }

  /** Each colour's win/loss totals count exactly that colour's won and lost games. */
  lemma {:induction false} FoldStats(games: seq<Game>, target: string, c: Color)
    ensures Fold(games, target).Stats(c) ==
      WinLoss(|WithOutcome(Plays(games, target, c), Won)|, |WithOutcome(Plays(games, target, c), Lost)|)
    decreases |games|
  {
    if games != [] {
      var init := games[..|games| - 1];
      var g := games[|games| - 1];
      var t0 := Fold(init, target);
      assert Fold(games, target) == Step(t0, g, target);
      FoldStats(init, target, c);
      var ps := Plays(init, target, c);
      StepEffect(t0, g, target, c);
      if Attribution(g, target) == Some(c) {
        var p := Play(OpeningKey(g), OutcomeFor(g, c));
        assert Plays(games, target, c) == ps + [p];
        WithOutcomeAppend(ps, p, Won);
        WithOutcomeAppend(ps, p, Lost);
      } else {
        assert Plays(games, target, c) == ps;
      }
    }
  }

  /** The opening counts of a colour add up to the number of games attributed to it. */
  lemma {:induction false} FoldSumCount(games: seq<Game>, target: string, c: Color)
    ensures SumCount(Fold(games, target).Openings(c)) == |Plays(games, target, c)|
    decreases |games|
  {
    if games != [] {
      var init := games[..|games| - 1];
      var g := games[|games| - 1];
      var t0 := Fold(init, target);
      assert Fold(games, target) == Step(t0, g, target);
      FoldSumCount(init, target, c);
      StepEffect(t0, g, target, c);
    }
  }

  lemma KeysAppend(ps: seq<Play>, p: Play)
    ensures Keys(ps + [p]) == Keys(ps) + [p.key]
  {
  }

  /** One more key is added at the end, unless it was seen before. */
  lemma FirstSeenAppend(ks: seq<string>, k: string)
    ensures FirstSeen(ks + [k]) == if k in FirstSeen(ks) then FirstSeen(ks) else FirstSeen(ks) + [k]
  {
    AppendOne(ks, k);
  }

  /** The tally keys of a colour are its opening keys in order of first appearance. */
  lemma {:induction false} FoldOrder(games: seq<Game>, target: string, c: Color)
    ensures NamesOf(Fold(games, target).Openings(c)) == FirstSeen(Keys(Plays(games, target, c)))
    decreases |games|
  {
    if games != [] {
      var init := games[..|games| - 1];
      var g := games[|games| - 1];
      var t0 := Fold(init, target);
      assert Fold(games, target) == Step(t0, g, target);
      FoldOrder(init, target, c);
      StepEffect(t0, g, target, c);
      var ps := Plays(init, target, c);
      if Attribution(g, target) == Some(c) {
        var p := Play(OpeningKey(g), OutcomeFor(g, c));
        assert Plays(games, target, c) == ps + [p];
        KeysAppend(ps, p);
        FirstSeenAppend(Keys(ps), p.key);
      } else {
        assert Plays(games, target, c) == ps;
      }
    }
  }

  /** A record that is skipped (unusable, unmatched, or provisional on the matching side)
      leaves the whole result as if it were not there. */
  lemma SkippedRecordChangesNothing(games: seq<Game>, g: Game, target: string)
    requires Attribution(g, target).None?
    ensures Fold(games + [g], target) == Fold(games, target)
  {
    AppendOne(games, g);
  }

  /** An empty target name matches nothing, so the fold stays empty. */
  lemma {:induction false} EmptyTargetYieldsEmpty(games: seq<Game>)
    ensures Fold(games, "") == Empty
    decreases |games|
  {
    if games != [] {
      EmptyTargetMatchesNothing(games[|games| - 1]);
      EmptyTargetYieldsEmpty(games[..|games| - 1]);
    }
  }
}
