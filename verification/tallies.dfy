/**
 The per-colour opening tally of `analyzeGames`: an object keyed by opening name,
 modelled as an association list in insertion order, and the one update the
 fold applies to it.
 */
module Tallies {
  import opened Wrappers
  import opened Games

  /** One opening of one colour: the `{ name, count, wins, losses }` shape the analysis returns. */
  datatype OpeningStat = OpeningStat(name: string, count: nat, wins: nat, losses: nat)

  /** The opening names in list order. */
  function NamesOf(s: seq<OpeningStat>): (r: seq<string>)
    ensures |r| == |s|
    ensures forall i :: 0 <= i < |s| ==> r[i] == s[i].name
  {
    seq(|s|, i requires 0 <= i < |s| => s[i].name)
  }

  /** No opening name occurs twice, as with the keys of an object. */
  predicate Distinct(s: seq<OpeningStat>)
  {
    forall i, j :: 0 <= i < j < |s| ==> s[i].name != s[j].name
  }

  /** A tally that exists has been played at least once, and wins and losses are part of the count. */
  predicate Sane(e: OpeningStat)
  {
    e.count >= 1 && e.wins + e.losses <= e.count
  }

  predicate WellFormed(s: seq<OpeningStat>)
  {
    Distinct(s) && forall i :: 0 <= i < |s| ==> Sane(s[i])
  }

  /** `tally[name]`: the entry stored under `name`, if any. */
  function Lookup(s: seq<OpeningStat>, name: string): (r: Option<OpeningStat>)
    ensures r.Some? <==> name in NamesOf(s)
    ensures r.Some? ==> r.value in s && r.value.name == name
  {
    if s == [] then None
    else if s[0].name == name then Some(s[0])
    else
      assert NamesOf(s) == [s[0].name] + NamesOf(s[1..]);
      Lookup(s[1..], name)
  }

  function SumCount(s: seq<OpeningStat>): nat
  {
    if s == [] then 0 else s[0].count + SumCount(s[1..])
  }

  function SumWins(s: seq<OpeningStat>): nat
  {
    if s == [] then 0 else s[0].wins + SumWins(s[1..])
  }

  function SumLosses(s: seq<OpeningStat>): nat
  {
    if s == [] then 0 else s[0].losses + SumLosses(s[1..])
  }

  /** One more game in an entry: `count` grows by one, `wins` only on a win, `losses` only on a loss. */
  function Credit(e: OpeningStat, o: Outcome): (r: OpeningStat)
    ensures r.name == e.name && r.count == e.count + 1
    ensures r.wins == e.wins + (if o == Won then 1 else 0)
    ensures r.losses == e.losses + (if o == Lost then 1 else 0)
    ensures Sane(r) <== e.wins + e.losses <= e.count
  {
    match o
    case Won => e.(count := e.count + 1, wins := e.wins + 1)
    case Lost => e.(count := e.count + 1, losses := e.losses + 1)
    case Undecided => e.(count := e.count + 1)
  }

  /** The entry a game for `name` starts from: the stored one, or an all-zero one when the key is new. */
  function Current(s: seq<OpeningStat>, name: string): (e: OpeningStat)
    ensures e.name == name
  {
    match Lookup(s, name)
    case Some(e) => e
    case None => OpeningStat(name, 0, 0, 0)
  }

  /** How the list functions above see a list built from a head and a tail. */
  lemma Cons(e: OpeningStat, s: seq<OpeningStat>)
    ensures NamesOf([e] + s) == [e.name] + NamesOf(s)
    ensures SumCount([e] + s) == e.count + SumCount(s)
    ensures SumWins([e] + s) == e.wins + SumWins(s)
    ensures SumLosses([e] + s) == e.losses + SumLosses(s)
  {
    assert ([e] + s)[1..] == s;
  }

  /** Records one game of opening `name`: a known key keeps its place, a new key is appended
      at the end, and the column sums move by exactly that one game. */
  function Bump(s: seq<OpeningStat>, name: string, o: Outcome): (r: seq<OpeningStat>)
    ensures NamesOf(r) == if name in NamesOf(s) then NamesOf(s) else NamesOf(s) + [name]
    ensures SumCount(r) == SumCount(s) + 1
    ensures SumWins(r) == SumWins(s) + (if o == Won then 1 else 0)
    ensures SumLosses(r) == SumLosses(s) + (if o == Lost then 1 else 0)
  {
    if s == [] then
      var e := Credit(OpeningStat(name, 0, 0, 0), o);
      Cons(e, []);
      assert [e] + [] == [e];
      [e]
    else
      assert s == [s[0]] + s[1..];
      Cons(s[0], s[1..]);
      if s[0].name == name then
        Cons(Credit(s[0], o), s[1..]);
        [Credit(s[0], o)] + s[1..]
      else
        var rest := Bump(s[1..], name, o);
        Cons(s[0], rest);
        [s[0]] + rest
  }

  /** After `Bump`, the entry under `name` is the old one (or a zero one) credited with the game,
      and every other key reads as before. */
  lemma {:induction false} BumpLookup(s: seq<OpeningStat>, name: string, o: Outcome, n: string)
    ensures Lookup(Bump(s, name, o), n) == if n == name then Some(Credit(Current(s, name), o)) else Lookup(s, n)
  {
    if s != [] && s[0].name != name {
      var r := Bump(s, name, o);
      assert r[1..] == Bump(s[1..], name, o);
      BumpLookup(s[1..], name, o, n);
    }
  }

  /** A sane head whose name is new, in front of a well-formed tail, gives a well-formed list. */
  lemma WellFormedCons(e: OpeningStat, s: seq<OpeningStat>)
    requires Sane(e) && e.name !in NamesOf(s) && WellFormed(s)
    ensures WellFormed([e] + s)
  {
    var r := [e] + s;
    forall i, j | 0 <= i < j < |r|
      ensures r[i].name != r[j].name
    {
      if i == 0 {
        assert r[j].name == NamesOf(s)[j - 1];
      } else {
        assert r[i] == s[i - 1] && r[j] == s[j - 1];
      }
    }
    forall i | 0 <= i < |r|
      ensures Sane(r[i])
    {
      if i > 0 {
        assert r[i] == s[i - 1];
      }
    }
  }

  /** The head of a well-formed list is sane and its name does not recur in the well-formed tail. */
  lemma WellFormedUncons(s: seq<OpeningStat>)
    requires WellFormed(s) && s != []
    ensures Sane(s[0]) && s[0].name !in NamesOf(s[1..]) && WellFormed(s[1..])
  {
    var t := s[1..];
    assert forall i :: 0 <= i < |t| ==> t[i] == s[i + 1];
  }

  /** `Bump` keeps keys distinct and every entry sane. */
  lemma {:induction false} BumpWellFormed(s: seq<OpeningStat>, name: string, o: Outcome)
    requires WellFormed(s)
    ensures WellFormed(Bump(s, name, o))
  {
    if s != [] {
      WellFormedUncons(s);
      Cons(s[0], s[1..]);
      assert s == [s[0]] + s[1..];
      if s[0].name == name {
        WellFormedCons(Credit(s[0], o), s[1..]);
      } else {
        var rest := Bump(s[1..], name, o);
        BumpWellFormed(s[1..], name, o);
        WellFormedCons(s[0], rest);
      }
    }
  }
}
