/** Choosing manifests under a bound (crates/overcrow-control/src/steam.rs): whatever order
    directories are listed in, the same manifests are inspected. */
module SteamDiscovery {
  import opened Common
  import opened Bytes
  import opened Orders

  const MAX_MANIFESTS_INSPECTED := 256

  // --- bounded sets over a total order ----------------------------------------------

  /** `kept` holds the `limit` smallest elements of `all`, or all of them if they are fewer. */
  ghost predicate Bottom<T(!new)>(less: (T, T) -> bool, all: set<T>, limit: nat, kept: set<T>)
  {
    && kept <= all && |kept| == Min(|all|, limit)
    && forall x, y :: x in kept && y in all && y !in kept ==> less(x, y)
  }

  /** There is one such set: it does not depend on how it was found. */
  lemma BottomUnique<T(!new)>(less: (T, T) -> bool, all: set<T>, limit: nat, a: set<T>, b: set<T>)
    requires Ordered(less) && Bottom(less, all, limit, a) && Bottom(less, all, limit, b)
    ensures a == b
  {
    SameSize(a, b);
    assert forall x, y :: x in a - b && y in b - a ==> less(x, y) && less(y, x);
  }

  lemma SameSize<T>(a: set<T>, b: set<T>)
    requires |a| == |b|
    ensures |a - b| == |b - a|
    ensures a == b <==> a - b == {} || b - a == {}
  {
    assert a == (a - b) + a * b && b == (b - a) + a * b;
    assert a - b == {} || b - a == {} ==> |a - b| == 0 && |b - a| == 0;
  }

  method RetainBounded<T(==, !new)>(less: (T, T) -> bool, values: set<T>, value: T, limit: nat, exceeded: bool,
                                    ghost seen: set<T>)
    returns (kept: set<T>, flag: bool)
    requires Ordered(less) && Bottom(less, seen, limit, values) && exceeded == (|seen| > limit)
    ensures Bottom(less, seen + {value}, limit, kept) && flag == (|seen + {value}| > limit)
  {
    kept, flag := values, exceeded;
    if value in values {
      assert seen + {value} == seen;
      return;
    }
    if |values| < limit {
      FewSeen(less, seen, limit, values);
      kept := kept + {value};
      return;
    }
    flag := true;
    Crowded(less, seen, limit, values, value);
    if values != {} {
      HasGreatest(less, values);
      var last :| IsGreatest(less, values, last);
      if less(value, last) {
        kept := kept - {last} + {value};
        Displaced(less, seen, limit, values, value, last);
      } else {
        Refused(less, seen, limit, values, value);
      }
    }
  }

  lemma FewSeen<T(!new)>(less: (T, T) -> bool, seen: set<T>, limit: nat, values: set<T>)
    requires Bottom(less, seen, limit, values) && |values| < limit
    ensures values == seen
  {
    SameSize(values, seen);
    assert values - seen == {};
  }

  /** A value found missing from a full set makes more than `limit` distinct ones. */
  lemma Crowded<T(!new)>(less: (T, T) -> bool, seen: set<T>, limit: nat, values: set<T>, value: T)
    requires Bottom(less, seen, limit, values) && |values| == limit && value !in values
    ensures |seen + {value}| > limit
  {
    assert values + {value} <= seen + {value};
    SubsetSize(values + {value}, seen + {value});
  }

  lemma SubsetSize<T>(a: set<T>, b: set<T>)
    requires a <= b
    ensures |a| <= |b|
  {
    assert b == a + (b - a);
  }

  lemma Displaced<T(!new)>(less: (T, T) -> bool, seen: set<T>, limit: nat, values: set<T>, value: T, last: T)
    requires Ordered(less) && Bottom(less, seen, limit, values) && |values| == limit && value !in values
    requires IsGreatest(less, values, last) && less(value, last)
    ensures Bottom(less, seen + {value}, limit, values - {last} + {value})
  {
    Crowded(less, seen, limit, values, value);
    var kept, all := values - {last} + {value}, seen + {value};
    assert |kept| == limit;
    forall x, y | x in kept && y in all && y !in kept
      ensures less(x, y)
    {
      assert y == last || (y in seen && y !in values);
      assert x == value || (x in values && less(x, last));
      if y != last {
        assert less(last, y);
      }
    }
  }

  lemma Refused<T(!new)>(less: (T, T) -> bool, seen: set<T>, limit: nat, values: set<T>, value: T)
    requires Ordered(less) && Bottom(less, seen, limit, values) && |values| == limit && value !in values
    requires exists last :: IsGreatest(less, values, last) && !less(value, last)
    ensures Bottom(less, seen + {value}, limit, values)
  {
    Crowded(less, seen, limit, values, value);
    var last :| IsGreatest(less, values, last) && !less(value, last);
    assert less(last, value);
  }

  // --- libraries --------------------------------------------------------------------

  /** Manifests are ordered by app id and then by path; a path stands for its place in the
      order of paths. */
  datatype Manifest = Manifest(appId: nat, path: int)

  predicate Before(a: Manifest, b: Manifest)
  {
    a.appId < b.appId || (a.appId == b.appId && a.path < b.path)
  }

  datatype Entry = Named(manifest: Manifest) | Malformed | Unrelated | Unreadable

  function Manifests(entries: seq<Entry>): set<Manifest>
  {
    set i | 0 <= i < |entries| && entries[i].Named? :: entries[i].manifest
  }

  datatype Kind = SteamGame | SteamShortcut | Unverified

  /** A game, known by its app id. */
  datatype Game = Game(name: Text, kind: Kind, installDir: Option<string>, icon: Option<string>)

  const NO_GAME := Game([], Unverified, None, None)

  datatype Library = Library(listing: Option<seq<Entry>>, parse: Manifest -> Option<Game>)

  datatype Scan = Scan(games: map<nat, Game>, inspected: nat, reported: bool)

  ghost function Smallest(all: set<Manifest>, limit: nat): (r: set<Manifest>)
    ensures Bottom(Before, all, limit, r)
    decreases limit
  {
    if limit == 0 || all == {} then {}
    else
      HasLeast(Before, all);
      var m :| IsLeast(Before, all, m);
      {m} + Smallest(all - {m}, limit - 1)
  }

  ghost function Least(s: set<Manifest>): (m: Manifest)
    requires s != {}
    ensures IsLeast(Before, s, m)
  {
    HasLeast(Before, s);
    var m :| IsLeast(Before, s, m);
    m
  }

  /** The manifests that yield a game for an id. */
  function Claims(parse: Manifest -> Option<Game>, chosen: set<Manifest>, id: nat): set<Manifest>
  {
    set m | m in chosen && m.appId == id && parse(m).Some?
  }

  /** The games known after reading the chosen manifests: an id that has no game yet gets
      it from the least manifest that yields one. */
  ghost function ReadGames(games: map<nat, Game>, chosen: set<Manifest>,
                           parse: Manifest -> Option<Game>): map<nat, Game>
  {
    map id | id in games.Keys + (set m | m in chosen && parse(m).Some? :: m.appId) ::
      if id in games then games[id]
      else if Claims(parse, chosen, id) != {} then GameFrom(parse, Claims(parse, chosen, id)) else NO_GAME
  }

  ghost function GameFrom(parse: Manifest -> Option<Game>, claims: set<Manifest>): Game
    requires claims != {}
  {
    var info := parse(Least(claims));
    if info.Some? then info.value else NO_GAME
  }

  /** `scan_library`. */
  ghost function LibraryScanned(s: Scan, library: Library): Scan
  {
    if library.listing.None? then s
    else
      var all := Manifests(library.listing.value);
      var remaining := Max(MAX_MANIFESTS_INSPECTED - s.inspected, 0);
      var chosen := Smallest(all, remaining);
      Scan(ReadGames(s.games, chosen, library.parse), s.inspected + |chosen|, s.reported || |all| > remaining)
  }

  ghost function LibrariesScanned(s: Scan, libraries: seq<Library>): Scan
  {
    if libraries == [] then s
    else
      var before := LibrariesScanned(s, libraries[..|libraries| - 1]);
      if before.reported then before else LibraryScanned(before, libraries[|libraries| - 1])
  }

  lemma BeforeOrdered()
    ensures Ordered(Before)
  {
  }

  method ChooseManifests(entries: seq<Entry>, limit: nat) returns (chosen: set<Manifest>, exceeded: bool)
    ensures Bottom(Before, Manifests(entries), limit, chosen)
    ensures exceeded <==> |Manifests(entries)| > limit
  {
    BeforeOrdered();
    chosen, exceeded := {}, false;
    var i := 0;
    while i < |entries|
      invariant 0 <= i <= |entries|
      invariant Bottom(Before, Manifests(entries[..i]), limit, chosen)
      invariant exceeded == (|Manifests(entries[..i])| > limit)
    {
      ManifestsGrow(entries, i);
      if entries[i].Named? {
        chosen, exceeded := RetainBounded(Before, chosen, entries[i].manifest, limit, exceeded,
                                          Manifests(entries[..i]));
      }
      i := i + 1;
    }
    assert entries[..i] == entries;
  }

  lemma ManifestsGrow(entries: seq<Entry>, i: nat)
    requires i < |entries|
    ensures Manifests(entries[..i + 1])
            == Manifests(entries[..i]) + if entries[i].Named? then {entries[i].manifest} else {}
  {
    var shorter, longer := entries[..i], entries[..i + 1];
    assert longer == shorter + [entries[i]];
    forall m
      ensures m in Manifests(longer) <==> m in Manifests(shorter) || (entries[i].Named? && m == entries[i].manifest)
    {
      if m in Manifests(shorter) {
        var k :| 0 <= k < |shorter| && shorter[k].Named? && shorter[k].manifest == m;
        assert longer[k].Named? && longer[k].manifest == m;
      }
      if entries[i].Named? && m == entries[i].manifest {
        assert longer[i].Named? && longer[i].manifest == m;
      }
    }
  }

  /** Reading one more manifest, greater than those read so far. */
  lemma ReadStep(games: map<nat, Game>, done: set<Manifest>, m: Manifest, parse: Manifest -> Option<Game>)
    requires forall n :: n in done ==> Before(n, m)
    ensures var known := ReadGames(games, done, parse);
            ReadGames(games, done + {m}, parse)
            == if parse(m).Some? && m.appId !in known then known[m.appId := parse(m).value] else known
  {
    var known, after := ReadGames(games, done, parse), ReadGames(games, done + {m}, parse);
    var expected := if parse(m).Some? && m.appId !in known then known[m.appId := parse(m).value] else known;
    KnownIds(games, done, parse);
    KnownIds(games, done + {m}, parse);
    forall id | id in after && id !in games
      ensures id in expected && after[id] == expected[id]
    {
      ClaimsStep(parse, done, m, id);
    }
    assert after.Keys == expected.Keys;
  }

  lemma KnownIds(games: map<nat, Game>, chosen: set<Manifest>, parse: Manifest -> Option<Game>)
    ensures forall id :: id in ReadGames(games, chosen, parse) <==> id in games || Claims(parse, chosen, id) != {}
  {
    forall id
      ensures id in ReadGames(games, chosen, parse) <==> id in games || Claims(parse, chosen, id) != {}
    {
      if Claims(parse, chosen, id) != {} {
        var m :| m in Claims(parse, chosen, id);
      }
      assert forall m :: m in chosen && parse(m).Some? && m.appId == id ==> m in Claims(parse, chosen, id);
    }
  }

  /** A greater manifest does not take an id over. */
  lemma ClaimsStep(parse: Manifest -> Option<Game>, done: set<Manifest>, m: Manifest, id: nat)
    requires forall n :: n in done ==> Before(n, m)
    ensures var earlier, later := Claims(parse, done, id), Claims(parse, done + {m}, id);
            && (earlier == {} && later != {} ==> m.appId == id && parse(m).Some? && Least(later) == m)
            && (earlier != {} ==> later != {} && Least(later) == Least(earlier))
            && (later == {} ==> !(m.appId == id && parse(m).Some?))
  {
    var before, after := Claims(parse, done, id), Claims(parse, done + {m}, id);
    assert forall n :: n in after <==> n in before || (n == m && m.appId == id && parse(m).Some?);
    assert m.appId == id && parse(m).Some? ==> m in after;
    if before != {} {
      var least := Least(before);
      assert least in after;
      assert forall n :: n in after ==> n == least || Before(least, n);
    }
  }

  /** Manifests that readable directories list. */
  function Listed(libraries: seq<Library>): nat
  {
    if libraries == [] then 0
    else
      var last := libraries[|libraries| - 1];
      Listed(libraries[..|libraries| - 1]) + if last.listing.Some? then |Manifests(last.listing.value)| else 0
  }

  /** Of all manifests listed, 256 are read, or all if they are fewer, and the limit is
      reported exactly if they are more. */
  lemma {:induction false} InspectionBounded(libraries: seq<Library>)
    ensures var scan := LibrariesScanned(Scan(map[], 0, false), libraries);
            && scan.inspected == Min(256, Listed(libraries))
            && (scan.reported <==> Listed(libraries) > 256)
  {
    hide ReadGames;
    if libraries != [] {
      InspectionBounded(libraries[..|libraries| - 1]);
    }
  }

  /** The library lists a manifest that yields a game for the id. */
  predicate Yields(library: Library, m: Manifest, id: nat)
  {
    library.listing.Some? && Named(m) in library.listing.value && m.appId == id && library.parse(m).Some?
  }

  ghost predicate YieldsNone(libraries: seq<Library>, id: nat)
  {
    forall i, m :: 0 <= i < |libraries| ==> !Yields(libraries[i], m, id)
  }

  /** The games known after all manifests of a library have been read. */
  ghost function AllRead(games: map<nat, Game>, library: Library): map<nat, Game>
  {
    if library.listing.None? then games else ReadGames(games, Manifests(library.listing.value), library.parse)
  }

  lemma AllAreRead(libraries: seq<Library>)
    requires libraries != [] && Listed(libraries) <= 256
    ensures var front, last := libraries[..|libraries| - 1], libraries[|libraries| - 1];
            && Listed(front) <= 256
            && LibrariesScanned(Scan(map[], 0, false), libraries).games
               == AllRead(LibrariesScanned(Scan(map[], 0, false), front).games, last)
  {
    hide ReadGames, Smallest, Manifests;
    var front, last := libraries[..|libraries| - 1], libraries[|libraries| - 1];
    InspectionBounded(front);
    if last.listing.Some? {
      var before := LibrariesScanned(Scan(map[], 0, false), front);
      AllChosen(Manifests(last.listing.value), 256 - before.inspected);
    }
  }

  lemma LibraryRead(games: map<nat, Game>, library: Library, id: nat, m: Manifest)
    ensures var after := AllRead(games, library);
            && (id in games ==> id in after && after[id] == games[id])
            && (id in after && id !in games ==> exists n :: Yields(library, n, id))
            && (Yields(library, m, id) ==> id in after)
            && (Yields(library, m, id) && id !in games && (forall n :: Yields(library, n, id) ==> m.path <= n.path)
                ==> Some(after[id]) == library.parse(m))
  {
    if library.listing.Some? {
      var all := Manifests(library.listing.value);
      KnownIds(games, all, library.parse);
      var claims := Claims(library.parse, all, id);
      assert forall n :: n in claims <==> Yields(library, n, id) by {
        forall n | Yields(library, n, id) ensures n in all {
          var k :| 0 <= k < |library.listing.value| && library.listing.value[k] == Named(n);
        }
      }
    }
  }

  /** Below the limit: an id is known exactly if some manifest yields a game for it. */
  lemma {:induction false} GamesKnown(libraries: seq<Library>, id: nat)
    requires Listed(libraries) <= 256
    ensures id in LibrariesScanned(Scan(map[], 0, false), libraries).games <==> !YieldsNone(libraries, id)
  {
    if libraries != [] {
      hide LibrariesScanned, AllRead, Yields, Listed;
      var front, last := libraries[..|libraries| - 1], libraries[|libraries| - 1];
      AllAreRead(libraries);
      GamesKnown(front, id);
      var before := LibrariesScanned(Scan(map[], 0, false), front).games;
      assert libraries == front + [last];
      forall m
        ensures Yields(last, m, id) ==> id in AllRead(before, last)
      {
        LibraryRead(before, last, id, m);
      }
      LibraryRead(before, last, id, Manifest(id, 0));
    }
  }

  /** And its game comes from the first library that yields one, there from the manifest of
      least path, whatever comes after. */
  lemma {:induction false} GamesFound(libraries: seq<Library>, i: nat, m: Manifest, id: nat)
    requires Listed(libraries) <= 256 && i < |libraries| && YieldsNone(libraries[..i], id)
    requires Yields(libraries[i], m, id) && forall n :: Yields(libraries[i], n, id) ==> m.path <= n.path
    ensures var games := LibrariesScanned(Scan(map[], 0, false), libraries).games;
            id in games && Some(games[id]) == libraries[i].parse(m)
    decreases |libraries|
  {
    hide LibrariesScanned, AllRead, Yields, Listed, YieldsNone;
    var front, last := libraries[..|libraries| - 1], libraries[|libraries| - 1];
    AllAreRead(libraries);
    if i < |front| {
      assert front[..i] == libraries[..i];
      GamesFound(front, i, m, id);
    } else {
      GamesKnown(front, id);
    }
    LibraryRead(LibrariesScanned(Scan(map[], 0, false), front).games, last, id, m);
  }

  lemma AllChosen(all: set<Manifest>, limit: nat)
    requires |all| <= limit
    ensures Smallest(all, limit) == all
  {
    SameSize(Smallest(all, limit), all);
    assert Smallest(all, limit) - all == {};
  }

  /** The same directories, listed in another order. */
  ghost predicate SameLibraries(a: seq<Library>, b: seq<Library>)
  {
    && |a| == |b|
    && forall i :: 0 <= i < |a| ==>
      && a[i].parse == b[i].parse && a[i].listing.Some? == b[i].listing.Some?
      && (a[i].listing.Some? ==> Manifests(a[i].listing.value) == Manifests(b[i].listing.value))
  }

  /** What is found does not depend on the order directories are listed in. */
  lemma {:induction false} ListingOrderIrrelevant(s: Scan, a: seq<Library>, b: seq<Library>)
    requires SameLibraries(a, b)
    ensures LibrariesScanned(s, a) == LibrariesScanned(s, b)
  {
    hide Smallest, ReadGames;
    if a != [] {
      var m, n := a[|a| - 1], b[|b| - 1];
      assert SameLibraries(a[..|a| - 1], b[..|b| - 1]);
      ListingOrderIrrelevant(s, a[..|a| - 1], b[..|b| - 1]);
    }
  }

  class ManifestScan {
    var games: map<nat, Game>
    var inspected: nat
    var limitReported: bool

    ghost function View(): Scan
      reads this
    {
      Scan(games, inspected, limitReported)
    }

    constructor ()
      ensures View() == Scan(map[], 0, false)
    {
      games, inspected, limitReported := map[], 0, false;
    }

    method ReadManifests(chosen: set<Manifest>, parse: Manifest -> Option<Game>)
      modifies this`games
      ensures games == ReadGames(old(games), chosen, parse)
    {
      BeforeOrdered();
      var rest := chosen;
      assert ReadGames(games, chosen - rest, parse) == games;
      while rest != {}
        invariant rest <= chosen
        invariant games == ReadGames(old(games), chosen - rest, parse)
        invariant forall m, n :: m in chosen - rest && n in rest ==> Before(m, n)
        decreases |rest|
      {
        HasLeast(Before, rest);
        var m :| IsLeast(Before, rest, m);
        ReadStep(old(games), chosen - rest, m, parse);
        assert chosen - (rest - {m}) == (chosen - rest) + {m};
        if parse(m).Some? && m.appId !in games {
          games := games[m.appId := parse(m).value];
        }
        rest := rest - {m};
      }
      assert chosen - rest == chosen;
    }

    method ScanLibrary(library: Library)
      modifies this
      ensures View() == LibraryScanned(old(View()), library)
    {
      hide ReadGames, Smallest;
      if library.listing.None? {
        return;
      }
      var remaining := Max(MAX_MANIFESTS_INSPECTED - inspected, 0);
      var chosen, exceeded := ChooseManifests(library.listing.value, remaining);
      BeforeOrdered();
      BottomUnique(Before, Manifests(library.listing.value), remaining, chosen,
                   Smallest(Manifests(library.listing.value), remaining));
      inspected := inspected + |chosen|;
      if exceeded {
        limitReported := true;
      }
      ReadManifests(chosen, library.parse);
    }

    method ScanLibraries(libraries: seq<Library>)
      modifies this
      ensures View() == LibrariesScanned(old(View()), libraries)
    {
      hide LibraryScanned;
      var i := 0;
      while i < |libraries|
        invariant 0 <= i <= |libraries|
        invariant View() == LibrariesScanned(old(View()), libraries[..i])
      {
        assert libraries[..i + 1][..i] == libraries[..i];
        if limitReported {
          StaysReported(old(View()), libraries, i);
          return;
        }
        ScanLibrary(libraries[i]);
        i := i + 1;
      }
      assert libraries[..i] == libraries;
    }
  }

  lemma {:induction false} StaysReported(s: Scan, libraries: seq<Library>, i: nat)
    requires i <= |libraries| && LibrariesScanned(s, libraries[..i]).reported
    ensures LibrariesScanned(s, libraries) == LibrariesScanned(s, libraries[..i])
    decreases |libraries|
  {
    if i < |libraries| {
      var front := libraries[..|libraries| - 1];
      assert front[..i] == libraries[..i];
      StaysReported(s, front, i);
    } else {
      assert libraries[..i] == libraries;
    }
  }
}
