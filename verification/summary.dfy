/**
 The value `analyzeGames` returns (`topWhiteOpenings`, `topBlackOpenings`,
 `winLossStats`) and the shape the page stores from it, with a win rate per
 ranked opening.
 */
module Summary {
  import opened Wrappers
  import opened Games
  import opened Tallies
  import opened Analysis
  import opened Ranking
  import opened Percentages

  /** The result of `analyzeGames`. */
  datatype Report = Report(topWhite: seq<OpeningStat>, topBlack: seq<OpeningStat>, whiteStats: WinLoss, blackStats: WinLoss)

  /** An entry of a list with distinct names is what looking its name up finds. */
  lemma {:induction false} LookupMember(s: seq<OpeningStat>, e: OpeningStat)
    requires Distinct(s) && e in s
    ensures Lookup(s, e.name) == Some(e)
  {
    if s[0] != e {
      assert s[0].name != e.name by {
        var i :| 0 <= i < |s| && s[i] == e;
      }
      assert e in s[1..];
      LookupMember(s[1..], e);
    }
  }

  /** The name of an entry is among the names of its list. */
  lemma NameOfMember(s: seq<OpeningStat>, e: OpeningStat)
    ensures e in s ==> e.name in NamesOf(s)
  {
    if e in s {
      var j :| 0 <= j < |s| && s[j] == e;
      assert NamesOf(s)[j] == e.name;
    }
  }

  /** What `analyzeGames` must report for colour `c`: at most five openings, one per distinct
      opening key up to that bound, no name twice, most played first; each kept opening sane and carrying exactly
      the number of games, wins and losses of that colour with that opening, and played at least as
      often as every opening left out; and colour totals
      that count every won and lost game of that colour, kept opening or not. */
  ghost predicate ReportsColor(games: seq<Game>, target: string, c: Color, top: seq<OpeningStat>, stats: WinLoss)
  {
    var ps := Plays(games, target, c);
    && |top| == (if |FirstSeen(Keys(ps))| < TopCount then |FirstSeen(Keys(ps))| else TopCount)
    && NonIncreasing(top)
    && Distinct(top)
    && (forall i :: 0 <= i < |top| ==> Sane(top[i]) && Expected(ps, top[i].name) == Some(top[i]))
    && (forall i, k :: 0 <= i < |top| && k in Keys(ps) && k !in NamesOf(top) ==> top[i].count >= |WithKey(ps, k)|)
    && stats == WinLoss(|WithOutcome(ps, Won)|, |WithOutcome(ps, Lost)|)
  }

  /** The ranked list and totals the fold yields for one colour are the ones it must report. */
  lemma FoldReportsColor(games: seq<Game>, target: string, c: Color)
    ensures ReportsColor(games, target, c, Top(Fold(games, target).Openings(c)), Fold(games, target).Stats(c))
  {
    var s := Fold(games, target).Openings(c);
    var top := Top(s);
    FoldOrder(games, target, c);
    FoldStats(games, target, c);
    assert |NamesOf(s)| == |s|;
    assert WellFormed(s);
    forall i | 0 <= i < |top|
      ensures Sane(top[i]) && Expected(Plays(games, target, c), top[i].name) == Some(top[i])
    {
      assert top[i] in multiset(s);
      LookupMember(s, top[i]);
      FoldLookup(games, target, c, top[i].name);
    }
    FoldTopOutranks(games, target, c);
  }

  /** Every kept opening of the fold's ranking was played at least as often as every opening
      of that colour it leaves out. */
  lemma FoldTopOutranks(games: seq<Game>, target: string, c: Color)
    ensures var ps := Plays(games, target, c);
            var top := Top(Fold(games, target).Openings(c));
            forall i, k :: 0 <= i < |top| && k in Keys(ps) && k !in NamesOf(top) ==> top[i].count >= |WithKey(ps, k)|
  {
    var ps := Plays(games, target, c);
    var s := Fold(games, target).Openings(c);
    var top := Top(s);
    FoldOrder(games, target, c);
    forall i, k | 0 <= i < |top| && k in Keys(ps) && k !in NamesOf(top)
      ensures top[i].count >= |WithKey(ps, k)|
    {
      assert k in NamesOf(s);
      FoldLookup(games, target, c, k);
      var y := Lookup(s, k).value;
      assert y in s && y.name == k;
      assert y.count == |WithKey(ps, k)|;
      NameOfMember(top, y);
      assert top[i] in top;
    }
  }

  /** `analyzeGames(games, target)`: for both colours the report is the one `ReportsColor`
      describes, and every kept opening satisfies wins + losses <= count with count >= 1. */
  function AnalyzeGames(games: seq<Game>, target: string): (a: Report)
    ensures ReportsColor(games, target, White, a.topWhite, a.whiteStats)
    ensures ReportsColor(games, target, Black, a.topBlack, a.blackStats)
    ensures forall i :: 0 <= i < |a.topWhite| ==> Sane(a.topWhite[i])
    ensures forall i :: 0 <= i < |a.topBlack| ==> Sane(a.topBlack[i])
  {
    var t := Fold(games, target);
    FoldReportsColor(games, target, White);
    FoldReportsColor(games, target, Black);
    Report(Top(t.white), Top(t.black), t.whiteStats, t.blackStats)
  }

  /** One opening as the page shows it. */
  datatype OpeningRate = OpeningRate(name: string, count: nat, winRate: nat)

  /** The `.map` from ranked openings to `{ name, count, winRate }`: same openings in the same
      order, each with its rounded win percentage, which lies in [0, 100]. */
  function Rates(top: seq<OpeningStat>): (r: seq<OpeningRate>)
    requires forall i :: 0 <= i < |top| ==> 1 <= top[i].count && top[i].wins <= top[i].count
    ensures |r| == |top|
    ensures forall i :: 0 <= i < |top| ==>
      && r[i].name == top[i].name && r[i].count == top[i].count && r[i].winRate <= 100
      && r[i].winRate == WinRate(top[i].wins, top[i].count)
  {
    seq(|top|, i requires 0 <= i < |top| => OpeningRate(top[i].name, top[i].count, WinRate(top[i].wins, top[i].count)))
  }

  /** What the page stores after a successful load: `stats` and `openings` of both colours. */
  datatype PlayerStats = PlayerStats(white: WinLoss, black: WinLoss, whiteOpenings: seq<OpeningRate>, blackOpenings: seq<OpeningRate>)

  /** The analysis mapped for display: per colour, the ranked openings of `AnalyzeGames` in
      their order, each shown with its name, its count (at least 1) and a win rate in [0, 100]
      computed from its own wins and count; at most five per colour. */
  function Summarize(games: seq<Game>, target: string): (p: PlayerStats)
    ensures |p.whiteOpenings| <= TopCount && |p.blackOpenings| <= TopCount
    ensures forall i :: 0 <= i < |p.whiteOpenings| ==>
      p.whiteOpenings[i].count >= 1 && p.whiteOpenings[i].winRate <= 100
    ensures forall i :: 0 <= i < |p.blackOpenings| ==>
      p.blackOpenings[i].count >= 1 && p.blackOpenings[i].winRate <= 100
    ensures p.white == AnalyzeGames(games, target).whiteStats && p.black == AnalyzeGames(games, target).blackStats
    ensures p.whiteOpenings == Rates(AnalyzeGames(games, target).topWhite)
    ensures p.blackOpenings == Rates(AnalyzeGames(games, target).topBlack)
  {
    var a := AnalyzeGames(games, target);
    PlayerStats(a.whiteStats, a.blackStats, Rates(a.topWhite), Rates(a.topBlack))
  }

  /** An empty target name: both colours report nothing. */
  lemma {:induction false} EmptyTargetEmptyReport(games: seq<Game>)
    ensures AnalyzeGames(games, "") == Report([], [], WinLoss(0, 0), WinLoss(0, 0))
  {
    EmptyTargetYieldsEmpty(games);
  }
}
