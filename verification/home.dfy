/**
 The search form of the home page: toggling a time-control checkbox and building
 the path the form navigates to.
 */
module Home {
  import opened Wrappers
  import opened Strings

  /** `xs.filter(x => x !== v)`. */
  function Remove(xs: seq<string>, v: string): seq<string>
  {
    if xs == [] then [] else (if xs[0] == v then [] else [xs[0]]) + Remove(xs[1..], v)
  }

  /** Filtering a list that starts with `x`: `x` unless it is `v`, then the rest filtered. */
  lemma RemoveCons(x: string, xs: seq<string>, v: string)
    ensures Remove([x] + xs, v) == (if x == v then [] else [x]) + Remove(xs, v)
  {
    assert ([x] + xs)[1..] == xs;
  }

  /** Every occurrence of `v` is dropped and every other value keeps its multiplicity. */
  lemma {:induction false} RemoveSpec(xs: seq<string>, v: string)
    ensures forall x :: x in Remove(xs, v) <==> x in xs && x != v
    ensures forall x :: x != v ==> multiset(Remove(xs, v))[x] == multiset(xs)[x]
    ensures |Remove(xs, v)| == |xs| - multiset(xs)[v]
  {
    if xs != [] {
      RemoveSpec(xs[1..], v);
      assert xs == [xs[0]] + xs[1..];
    }
  }

  /** Filtering distributes over concatenation, so the kept elements stay in their relative order. */
  lemma {:induction false} RemoveConcat(a: seq<string>, b: seq<string>, v: string)
    ensures Remove(a + b, v) == Remove(a, v) + Remove(b, v)
  {
    if a == [] {
      assert a + b == b;
    } else {
      var t := a[1..];
      assert a == [a[0]] + t;
      assert a + b == [a[0]] + (t + b);
      RemoveConcat(t, b, v);
      RemoveCons(a[0], t + b, v);
      RemoveCons(a[0], t, v);
    }
  }

  /** Filtering out a value that is not there changes nothing. */
  lemma {:induction false} RemoveAbsent(xs: seq<string>, v: string)
    requires v !in xs
    ensures Remove(xs, v) == xs
  {
    if xs != [] {
      var t := xs[1..];
      assert xs == [xs[0]] + t;
      RemoveAbsent(t, v);
      RemoveCons(xs[0], t, v);
    }
  }

  /** No value occurs twice. */
  ghost predicate NoDup(xs: seq<string>)
  {
    forall x :: multiset(xs)[x] <= 1
  }

  /** The checkbox updater: a selected value is unselected (all its occurrences filtered out,
      the rest kept in order, see `RemoveConcat`), an unselected one is appended at the end;
      nothing else changes. */
  function Toggle(xs: seq<string>, v: string): (r: seq<string>)
    ensures v in r <==> v !in xs
    ensures forall x :: x != v ==> multiset(r)[x] == multiset(xs)[x]
    ensures v !in xs ==> |r| == |xs| + 1 && r[..|xs|] == xs && r[|xs|] == v
    ensures v in xs ==> |r| == |xs| - multiset(xs)[v] && r == Remove(xs, v)
  {
    RemoveSpec(xs, v);
    if v in xs then Remove(xs, v) else xs + [v]
  }

  /** Toggling keeps a duplicate-free selection duplicate-free. */
  lemma ToggleKeepsNoDup(xs: seq<string>, v: string)
    requires NoDup(xs)
    ensures NoDup(Toggle(xs, v))
  {
    var r := Toggle(xs, v);
    RemoveSpec(xs, v);
    forall x
      ensures multiset(r)[x] <= 1
    {
      if x == v && v !in xs {
        assert multiset(r) == multiset(xs) + multiset{v};
      }
    }
  }

  /** Selecting an unselected value and unselecting it again restores the selection. */
  lemma ToggleTwiceFromAbsent(xs: seq<string>, v: string)
    requires v !in xs
    ensures Toggle(Toggle(xs, v), v) == xs
  {
    RemoveConcat(xs, [v], v);
    RemoveAbsent(xs, v);
    assert Remove([v], v) == [];
  }

  /** Unselecting a selected value and selecting it again moves it to the end. */
  lemma ToggleTwiceFromPresent(xs: seq<string>, v: string)
    requires v in xs
    ensures Toggle(Toggle(xs, v), v) == Remove(xs, v) + [v]
  {
    RemoveSpec(xs, v);
  }

  /** The `&time=` parameter: empty without time controls, otherwise "&time=" and the
      comma-joined list, from which splitting at the commas recovers the list. */
  function TimeParam(timeControls: seq<string>): (r: string)
    ensures r == "" <==> timeControls == []
    ensures timeControls != [] ==> |r| >= 6 && r[..6] == "&time="
    ensures timeControls != [] && (forall i :: 0 <= i < |timeControls| ==> ',' !in timeControls[i]) ==>
      Split(r[6..], ',') == timeControls
  {
    if |timeControls| > 0 then
      var r := "&time=" + Join(timeControls, ',');
      assert r[6..] == Join(timeControls, ',');
      assert (forall i :: 0 <= i < |timeControls| ==> ',' !in timeControls[i]) ==>
        Split(r[6..], ',') == timeControls by {
        if forall i :: 0 <= i < |timeControls| ==> ',' !in timeControls[i] {
          SplitJoin(timeControls, ',');
        }
      }
      r
    else ""
  }

  /** `handleSearch`: no navigation when the typed name is blank; otherwise the path starts with
      "/player/", the name as typed (untrimmed) and "?games=" with the chosen count, and ends with
      the time-control parameter. */
  function SearchPath(username: string, numberOfGames: string, timeControls: seq<string>): (r: Option<string>)
    ensures r.None? <==> Blank(username)
    ensures r.Some? ==>
      var head := "/player/" + username + "?games=" + numberOfGames;
      && |r.value| >= |head|
      && r.value[..|head|] == head
      && r.value[|head|..] == TimeParam(timeControls)
  {
    if Trim(username) != "" then
      Some("/player/" + username + "?games=" + numberOfGames + TimeParam(timeControls))
    else None
  }

  /** Without time controls the path stops after the game count. */
  lemma SearchPathWithoutTimeControls(username: string, numberOfGames: string)
    requires !Blank(username)
    ensures SearchPath(username, numberOfGames, []) == Some("/player/" + username + "?games=" + numberOfGames)
  {
    var head := "/player/" + username + "?games=" + numberOfGames;
    assert head + TimeParam([]) == head;
  }
}
