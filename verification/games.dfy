/**
 A decoded game record of the games export, and the per-record decisions of
 `analyzeGames`: whether the record is usable, which colour (if any) it is
 attributed to, its opening bucket and its outcome from the target's side.
 */
module Games {
  import opened Wrappers
  import opened Strings

  datatype Color = White | Black {
    function Opposite(): (o: Color)
      ensures o != this
    {
      if this == White then Black else White
    }

    /** The string the export writes in `winner` when this colour won. */
    function Label(): (s: string)
      ensures s == "white" || s == "black"
      ensures s == "white" <==> this == White
    {
      if this == White then "white" else "black"
    }
  }

  /** One entry of `players`: `user.name` (None when the side, its user or the name is absent)
      and the `provisional` flag (false when absent). */
  datatype Side = Side(name: Option<string>, provisional: bool)

  datatype Players = Players(white: Side, black: Side) {
    function Of(c: Color): Side
    {
      if c == White then white else black
    }
  }

  /** A game record: `players`, `winner` (None when absent; any other string is neither colour)
      and `opening.name` (None when `opening` or its name is absent). */
  datatype Game = Game(players: Option<Players>, winner: Option<string>, opening: Option<string>)

  /** How an attributed game ended for the target player. */
  datatype Outcome = Won | Lost | Undecided

  const UnknownOpening: string := "Unknown Opening"

  /** JavaScript truthiness of an optional string: present and not "". */
  predicate Truthy(s: Option<string>)
  {
    s.Some? && s.value != ""
  }

  /** The record names both players, so it can be attributed at all. */
  predicate Usable(g: Game)
  {
    g.players.Some? && Truthy(g.players.value.white.name) && Truthy(g.players.value.black.name)
  }

  /** Side `c` of a usable record is the target, compared case-insensitively. */
  predicate IsTarget(g: Game, c: Color, target: string)
    requires Usable(g)
  {
    Lower(g.players.value.Of(c).name.value) == Lower(target)
  }

  /** The colour the record counts for, or None when it is skipped. White is tested first,
      and a provisional matching side skips the record whatever the other side is. */
  function Attribution(g: Game, target: string): (r: Option<Color>)
    ensures r == Some(White) <==>
      Usable(g) && IsTarget(g, White, target) && !g.players.value.white.provisional
    ensures r == Some(Black) <==>
      Usable(g) && !IsTarget(g, White, target) && IsTarget(g, Black, target) && !g.players.value.black.provisional
  {
    if !Usable(g) then None
    else
      var p := g.players.value;
      var t := Lower(target);
      if Lower(p.white.name.value) == t then
        if p.white.provisional then None else Some(White)
      else if Lower(p.black.name.value) == t then
        if p.black.provisional then None else Some(Black)
      else None
  }

  /** The opening bucket: the opening name when it is truthy, otherwise "Unknown Opening";
      either way a non-empty key. */
  function OpeningKey(g: Game): (key: string)
    ensures key != ""
    ensures Truthy(g.opening) ==> key == g.opening.value
    ensures !Truthy(g.opening) ==> key == UnknownOpening
  {
    if Truthy(g.opening) then g.opening.value else UnknownOpening
  }

  /** The outcome for the player of colour `c`: a win exactly when `winner` names `c`,
      a loss exactly when it names the other colour, otherwise neither. */
  function OutcomeFor(g: Game, c: Color): (o: Outcome)
    ensures o == Won <==> g.winner == Some(c.Label())
    ensures o == Lost <==> g.winner == Some(c.Opposite().Label())
  {
    if g.winner == Some(c.Label()) then Won
    else if g.winner == Some(c.Opposite().Label()) then Lost
    else Undecided
  }

  /** A record naming the target on both sides goes to white (unless white is provisional). */
  lemma SelfPlayCountsAsWhite(g: Game, target: string)
    requires Usable(g) && IsTarget(g, White, target) && IsTarget(g, Black, target)
    ensures Attribution(g, target) != Some(Black)
    ensures !g.players.value.white.provisional ==> Attribution(g, target) == Some(White)
  {
  }

  /** Only the matching side's provisional flag matters. When white is the target, black's flag
      is never read; otherwise white's flag is never read. This holds for every record, skipped
      ones included, so flipping the other side's flag never changes the attribution. */
  lemma OtherSideProvisionalIrrelevant(g: Game, target: string, flag: bool)
    requires g.players.Some?
    ensures var p := g.players.value;
            Usable(g) && IsTarget(g, White, target) ==>
              Attribution(g.(players := Some(p.(black := p.black.(provisional := flag)))), target) == Attribution(g, target)
    ensures var p := g.players.value;
            !(Usable(g) && IsTarget(g, White, target)) ==>
              Attribution(g.(players := Some(p.(white := p.white.(provisional := flag)))), target) == Attribution(g, target)
  {
  }

  /** Matching ignores the case of the target name. */
  lemma AttributionIgnoresTargetCase(g: Game, target: string)
    ensures Attribution(g, Lower(target)) == Attribution(g, target)
  {
    LowerIdempotent(target);
  }

  /** An empty target matches no record: both names of a usable record are non-empty. */
  lemma EmptyTargetMatchesNothing(g: Game)
    ensures Attribution(g, "") == None
  {
    if Usable(g) {
      assert |Lower(g.players.value.white.name.value)| > 0;
      assert |Lower(g.players.value.black.name.value)| > 0;
    }
  }
}
