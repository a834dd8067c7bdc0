/**
 Worked examples of `analyzeGames` on single records: a plain win, a provisional
 game, a game without an opening name, and a draw.
 */
module Scenarios {
  import opened Wrappers
  import opened Games
  import opened Tallies
  import opened Analysis
  import opened Ranking
  import opened Summary
  import opened Strings

  /** A record between Alice (white) and Bob (black), neither provisional unless asked. */
  function AliceBob(whiteProvisional: bool, winner: Option<string>, opening: Option<string>): Game
  {
    Game(Some(Players(Side(Some("Alice"), whiteProvisional), Side(Some("Bob"), false))), winner, opening)
  }

  /** Alice wins with white in the Sicilian: one white game, one win, one opening. */
  lemma BasicAttribution()
    ensures AnalyzeGames([AliceBob(false, Some("white"), Some("Sicilian Defense"))], "alice") ==
      Report([OpeningStat("Sicilian Defense", 1, 1, 0)], [], WinLoss(1, 0), WinLoss(0, 0))
  {
    var g := AliceBob(false, Some("white"), Some("Sicilian Defense"));
    assert Lower("Alice") == Lower("alice");
    assert Attribution(g, "alice") == Some(White);
    assert [g][..0] == [];
    var e := OpeningStat("Sicilian Defense", 1, 1, 0);
    assert Fold([g], "alice") == Tally([e], [], WinLoss(1, 0), WinLoss(0, 0));
    assert SortByCount([e]) == [e];
  }

  /** The same game with Alice provisional counts for nothing. */
  lemma ProvisionalExcluded()
    ensures AnalyzeGames([AliceBob(true, Some("white"), Some("Sicilian Defense"))], "alice") ==
      Report([], [], WinLoss(0, 0), WinLoss(0, 0))
  {
    var g := AliceBob(true, Some("white"), Some("Sicilian Defense"));
    assert Lower("Alice") == Lower("alice");
    assert Attribution(g, "alice") == None;
    assert [g][..0] == [];
    assert Fold([g], "alice") == Empty;
  }

  /** Bob wins with black in a game without an opening: it is tallied as "Unknown Opening". */
  lemma MissingOpeningName()
    ensures AnalyzeGames([AliceBob(false, Some("black"), None)], "bob") ==
      Report([], [OpeningStat(UnknownOpening, 1, 1, 0)], WinLoss(0, 0), WinLoss(1, 0))
  {
    var g := AliceBob(false, Some("black"), None);
    assert Lower("Alice") != Lower("bob") by {
      assert Lower("Alice")[0] != Lower("bob")[0];
    }
    assert Lower("Bob") == Lower("bob");
    assert Attribution(g, "bob") == Some(Black);
    assert [g][..0] == [];
    var e := OpeningStat(UnknownOpening, 1, 1, 0);
    assert Fold([g], "bob") == Tally([], [e], WinLoss(0, 0), WinLoss(1, 0));
    assert SortByCount([e]) == [e];
  }

  /** A game without a winner raises the count only. */
  lemma DrawCountsOnly()
    ensures AnalyzeGames([AliceBob(false, None, Some("Sicilian Defense"))], "alice") ==
      Report([OpeningStat("Sicilian Defense", 1, 0, 0)], [], WinLoss(0, 0), WinLoss(0, 0))
  {
    var g := AliceBob(false, None, Some("Sicilian Defense"));
    assert Lower("Alice") == Lower("alice");
    assert Attribution(g, "alice") == Some(White);
    assert [g][..0] == [];
    var e := OpeningStat("Sicilian Defense", 1, 0, 0);
    assert Fold([g], "alice") == Tally([e], [], WinLoss(0, 0), WinLoss(0, 0));
    assert SortByCount([e]) == [e];
  }
}
