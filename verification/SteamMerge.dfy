/** Merging app types and shortcuts into the discovered games
    (crates/overcrow-control/src/steam.rs): the outcome depends on what the roots report,
    not on the order they are read in. */
module SteamMerge {
  import opened Common
  import opened Bytes
  import AppInfo
  import opened Shortcuts
  import opened SteamDiscovery

  type AppType = AppInfo.AppType

  /** What one root reports. */
  datatype Metadata = Metadata(appTypes: map<nat, AppType>, shortcuts: seq<Shortcut>)

  // --- the outcome ------------------------------------------------------------------

  function TypesIn(root: Metadata, id: nat): set<AppType>
  {
    if id in root.appTypes then {root.appTypes[id]} else {}
  }

  function NamesIn(shortcuts: seq<Shortcut>, id: nat): set<Text>
  {
    set k | 0 <= k < |shortcuts| && shortcuts[k].appId == id :: shortcuts[k].name
  }

  function Types(roots: seq<Metadata>, id: nat): set<AppType>
  {
    if roots == [] then {} else Types(roots[..|roots| - 1], id) + TypesIn(roots[|roots| - 1], id)
  }

  function Names(roots: seq<Metadata>, id: nat): set<Text>
  {
    if roots == [] then {} else Names(roots[..|roots| - 1], id) + NamesIn(roots[|roots| - 1].shortcuts, id)
  }

  predicate Conflict<T(==)>(s: set<T>) { exists a, b :: a in s && b in s && a != b }

  /** Two types, two shortcut names, or a manifest game that is also a shortcut. */
  predicate Ambiguous(games: map<nat, Game>, types: set<AppType>, names: set<Text>, id: nat)
  {
    Conflict(types) || Conflict(names) || (id in games && names != {})
  }

  /** What becomes of an id, given all that is reported of it. */
  ghost function Merged(games: map<nat, Game>, types: set<AppType>, names: set<Text>, id: nat): Option<Game>
  {
    if Ambiguous(games, types, names, id) then None
    else if id in games then
      if AppInfo.NonGame in types then None
      else Some(games[id].(kind := if AppInfo.Game in types then SteamGame else Unverified))
    else if names != {} then
      var name :| name in names;
      Some(Game(name, SteamShortcut, None, None))
    else None
  }

  /** Only what is reported counts, not the order of the reports. */
  lemma RootOrderIrrelevant(games: map<nat, Game>, a: seq<Metadata>, b: seq<Metadata>, id: nat)
    requires forall root :: root in a <==> root in b
    ensures Merged(games, Types(a, id), Names(a, id), id) == Merged(games, Types(b, id), Names(b, id), id)
  {
    Reported(a, id);
    Reported(b, id);
    assert Types(a, id) == Types(b, id);
    assert Names(a, id) == Names(b, id);
  }

  lemma {:induction false} Reported(roots: seq<Metadata>, id: nat)
    ensures forall t :: t in Types(roots, id) <==> exists root :: root in roots && t in TypesIn(root, id)
    ensures forall n :: n in Names(roots, id) <==> exists root :: root in roots && n in NamesIn(root.shortcuts, id)
  {
    if roots != [] {
      var front, last := roots[..|roots| - 1], roots[|roots| - 1];
      Reported(front, id);
      assert roots == front + [last];
    }
  }

  /** Some root gives the id this type. */
  predicate SaysType(roots: seq<Metadata>, id: nat, t: AppType)
  {
    exists k :: 0 <= k < |roots| && id in roots[k].appTypes && roots[k].appTypes[id] == t
  }

  /** Some root has a shortcut of that id and name. */
  predicate SaysName(roots: seq<Metadata>, id: nat, name: Text)
  {
    exists k :: 0 <= k < |roots| && Shortcut(id, name) in roots[k].shortcuts
  }

  lemma SaidIsSeen(roots: seq<Metadata>, id: nat)
    ensures forall t :: t in Types(roots, id) <==> SaysType(roots, id, t)
    ensures forall n :: n in Names(roots, id) <==> SaysName(roots, id, n)
  {
    Reported(roots, id);
    forall n, k | 0 <= k < |roots| && Shortcut(id, n) in roots[k].shortcuts
      ensures n in NamesIn(roots[k].shortcuts, id)
    {
      var j :| 0 <= j < |roots[k].shortcuts| && roots[k].shortcuts[j] == Shortcut(id, n);
    }
  }

  /** What no root contradicts: at most one type, at most one name, and no name at all for
      the game of a manifest. */
  ghost predicate Undisputed(games: map<nat, Game>, roots: seq<Metadata>, id: nat)
  {
    && (forall a, b :: SaysType(roots, id, a) && SaysType(roots, id, b) ==> a == b)
    && (forall a, b :: SaysName(roots, id, a) && SaysName(roots, id, b) ==> a == b)
    && (id in games ==> forall n :: !SaysName(roots, id, n))
  }

  /** An id stays exactly if nothing said of it is disputed and it is a manifest game that is
      not said to be no game, or has a shortcut. A game stays as it was but for its kind,
      which is certain exactly if some root says so; a shortcut has its name and no more. */
  lemma MergedAnswered(games: map<nat, Game>, roots: seq<Metadata>, id: nat)
    ensures var merged := Merged(games, Types(roots, id), Names(roots, id), id);
            && (merged.Some?
                <==> && Undisputed(games, roots, id)
                     && if id in games then !SaysType(roots, id, AppInfo.NonGame)
                        else exists n :: SaysName(roots, id, n))
            && (merged.Some? && id in games ==>
                  && merged.value.name == games[id].name && merged.value.installDir == games[id].installDir
                  && merged.value.icon == games[id].icon
                  && merged.value.kind == if SaysType(roots, id, AppInfo.Game) then SteamGame else Unverified)
            && (merged.Some? && id !in games ==>
                  && SaysName(roots, id, merged.value.name) && merged.value.kind == SteamShortcut
                  && merged.value.installDir.None? && merged.value.icon.None?)
  {
    hide Types, Names, SaysType, SaysName;
    SaidIsSeen(roots, id);
    var types, names := Types(roots, id), Names(roots, id);
    assert Undisputed(games, roots, id) <==> !Ambiguous(games, types, names, id);
    assert names != {} <==> exists n :: n in names;
  }

  // --- the merge --------------------------------------------------------------------

  /** What the maps hold about an id agrees with the types and names seen for it. */
  predicate Tracks(appTypes: map<nat, AppType>, shortcuts: map<nat, Text>, ambiguous: set<nat>, types: set<AppType>,
                   names: set<Text>, id: nat)
  {
    && (id in ambiguous <==> Conflict(types) || Conflict(names))
    && (id in appTypes ==> types == {appTypes[id]})
    && (id in shortcuts ==> names == {shortcuts[id]})
    && (id !in ambiguous ==> (types != {} ==> id in appTypes) && (names != {} ==> id in shortcuts))
  }

  lemma OneMore<T>(s: set<T>, x: T)
    ensures Conflict(s + {x}) <==> Conflict(s) || exists y :: y in s && y != x
  {
    if y :| y in s && y != x {
      assert y in s + {x} && x in s + {x};
    }
    if Conflict(s) {
      var a, b :| a in s && b in s && a != b;
      assert a in s + {x} && b in s + {x};
    }
  }

  lemma Elsewhere(appTypes: map<nat, AppType>, shortcuts: map<nat, Text>, ambiguous: set<nat>, types: set<AppType>,
                  names: set<Text>, appTypes': map<nat, AppType>, shortcuts': map<nat, Text>,
                  ambiguous': set<nat>, id: nat)
    requires Tracks(appTypes, shortcuts, ambiguous, types, names, id)
    requires (id in ambiguous' <==> id in ambiguous) && (id in appTypes' <==> id in appTypes)
             && (id in shortcuts' <==> id in shortcuts)
    requires (id in appTypes ==> appTypes'[id] == appTypes[id]) && (id in shortcuts ==> shortcuts'[id] == shortcuts[id])
    ensures Tracks(appTypes', shortcuts', ambiguous', types, names, id)
  {
    hide Conflict;
  }

  lemma TypeStep(appTypes: map<nat, AppType>, shortcuts: map<nat, Text>, ambiguous: set<nat>, types: set<AppType>,
                 names: set<Text>, id: nat, appType: AppType, appTypes': map<nat, AppType>, ambiguous': set<nat>)
    requires Tracks(appTypes, shortcuts, ambiguous, types, names, id)
    requires appTypes' == if id in appTypes && appTypes[id] != appType then appTypes - {id}
                          else if id !in appTypes && id !in ambiguous then appTypes[id := appType] else appTypes
    requires ambiguous' == if id in appTypes && appTypes[id] != appType then ambiguous + {id} else ambiguous
    ensures Tracks(appTypes', shortcuts, ambiguous', types + {appType}, names, id)
  {
    OneMore(types, appType);
    hide Conflict;
    assert types + {appType} != {};
  }

  lemma NameStep(appTypes: map<nat, AppType>, shortcuts: map<nat, Text>, ambiguous: set<nat>, types: set<AppType>,
                 names: set<Text>, id: nat, name: Text, shortcuts': map<nat, Text>, ambiguous': set<nat>)
    requires Tracks(appTypes, shortcuts, ambiguous, types, names, id)
    requires shortcuts' == if id in shortcuts && shortcuts[id] != name then shortcuts - {id}
                           else if id !in shortcuts && id !in ambiguous then shortcuts[id := name] else shortcuts
    requires ambiguous' == if id in shortcuts && shortcuts[id] != name then ambiguous + {id} else ambiguous
    ensures Tracks(appTypes, shortcuts', ambiguous', types, names + {name}, id)
  {
    OneMore(names, name);
    hide Conflict;
    assert names + {name} != {};
  }

  class MetadataMerge {
    var appTypes: map<nat, AppType>
    var shortcuts: map<nat, Text>
    var ambiguous: set<nat>
    /** The types and names seen so far. */
    ghost var types: nat -> set<AppType>
    ghost var names: nat -> set<Text>

    ghost predicate Valid()
      reads this
    {
      forall id :: Tracks(appTypes, shortcuts, ambiguous, types(id), names(id), id)
    }

    constructor ()
      ensures Valid() && forall id :: types(id) == {} && names(id) == {}
    {
      appTypes, shortcuts, ambiguous := map[], map[], {};
      types, names := (_: nat) => {}, (_: nat) => {};
    }

    method SeeType(id: nat, appType: AppType)
      requires Valid()
      modifies this
      ensures Valid() && names == old(names)
      ensures forall i :: types(i) == old(types)(i) + if i == id then {appType} else {}
    {
      hide Tracks;
      if id in appTypes {
        if appTypes[id] != appType {
          appTypes := appTypes - {id};
          ambiguous := ambiguous + {id};
        }
      } else if id !in ambiguous {
        appTypes := appTypes[id := appType];
      }
      ghost var seen := types;
      types := (i: nat) => seen(i) + if i == id then {appType} else {};
      forall i: nat
        ensures Tracks(appTypes, shortcuts, ambiguous, types(i), names(i), i)
      {
        assert old(Tracks(appTypes, shortcuts, ambiguous, types(i), names(i), i));
        if i == id {
          TypeStep(old(appTypes), shortcuts, old(ambiguous), seen(i), names(i), i, appType, appTypes, ambiguous);
        } else {
          assert types(i) == seen(i);
          Elsewhere(old(appTypes), shortcuts, old(ambiguous), seen(i), names(i), appTypes, shortcuts, ambiguous, i);
        }
      }
    }

    method SeeShortcut(shortcut: Shortcut)
      requires Valid()
      modifies this
      ensures Valid() && types == old(types)
      ensures forall i :: names(i) == old(names)(i) + if i == shortcut.appId then {shortcut.name} else {}
    {
      hide Tracks;
      var id := shortcut.appId;
      if id in shortcuts {
        if shortcuts[id] != shortcut.name {
          shortcuts := shortcuts - {id};
          ambiguous := ambiguous + {id};
        }
      } else if id !in ambiguous {
        shortcuts := shortcuts[id := shortcut.name];
      }
      ghost var seen := names;
      names := (i: nat) => seen(i) + if i == id then {shortcut.name} else {};
      forall i: nat
        ensures Tracks(appTypes, shortcuts, ambiguous, types(i), names(i), i)
      {
        assert old(Tracks(appTypes, shortcuts, ambiguous, types(i), names(i), i));
        if i == id {
          NameStep(appTypes, old(shortcuts), old(ambiguous), types(i), seen(i), i, shortcut.name, shortcuts, ambiguous);
        } else {
          assert names(i) == seen(i);
          Elsewhere(appTypes, old(shortcuts), old(ambiguous), types(i), seen(i), appTypes, shortcuts, ambiguous, i);
        }
      }
    }

    method SeeTypes(root: Metadata)
      requires Valid()
      modifies this
      ensures Valid() && names == old(names)
      ensures forall i :: types(i) == old(types)(i) + TypesIn(root, i)
    {
      hide Tracks;
      var rest := root.appTypes.Keys;
      while rest != {}
        invariant rest <= root.appTypes.Keys && Valid() && names == old(names)
        invariant forall i :: types(i) == old(types)(i) + if i in rest then {} else TypesIn(root, i)
        decreases |rest|
      {
        var id :| id in rest;
        ghost var before, left := types, rest - {id};
        SeeType(id, root.appTypes[id]);
        forall i
          ensures types(i) == old(types)(i) + if i in left then {} else TypesIn(root, i)
        {
          assert before(i) == old(types)(i) + if i in rest then {} else TypesIn(root, i);
        }
        rest := rest - {id};
      }
    }

    method SeeShortcuts(root: Metadata)
      requires Valid()
      modifies this
      ensures Valid() && types == old(types)
      ensures forall i :: names(i) == old(names)(i) + NamesIn(root.shortcuts, i)
    {
      hide Tracks;
      var k := 0;
      while k < |root.shortcuts|
        invariant 0 <= k <= |root.shortcuts| && Valid() && types == old(types)
        invariant forall i :: names(i) == old(names)(i) + NamesIn(root.shortcuts[..k], i)
      {
        ghost var before := names;
        SeeShortcut(root.shortcuts[k]);
        forall i
          ensures names(i) == old(names)(i) + NamesIn(root.shortcuts[..k + 1], i)
        {
          NamesGrow(root.shortcuts, k, i);
          assert before(i) == old(names)(i) + NamesIn(root.shortcuts[..k], i);
        }
        k := k + 1;
      }
      assert root.shortcuts[..k] == root.shortcuts;
    }

    method SeeRoot(root: Metadata)
      requires Valid()
      modifies this
      ensures Valid()
      ensures forall i :: types(i) == old(types)(i) + TypesIn(root, i)
      ensures forall i :: names(i) == old(names)(i) + NamesIn(root.shortcuts, i)
    {
      hide Tracks;
      SeeTypes(root);
      SeeShortcuts(root);
    }
  }

  lemma NamesGrow(shortcuts: seq<Shortcut>, k: nat, id: nat)
    requires k < |shortcuts|
    ensures NamesIn(shortcuts[..k + 1], id)
            == NamesIn(shortcuts[..k], id) + if id == shortcuts[k].appId then {shortcuts[k].name} else {}
  {
    var shorter, longer := shortcuts[..k], shortcuts[..k + 1];
    assert longer == shorter + [shortcuts[k]];
    forall n | n in NamesIn(shorter, id)
      ensures n in NamesIn(longer, id)
    {
      var j :| 0 <= j < |shorter| && shorter[j].appId == id && shorter[j].name == n;
      assert longer[j].appId == id && longer[j].name == n;
    }
    assert longer[k].appId == id ==> longer[k].name in NamesIn(longer, id);
  }

  /** What the final steps make of an id. */
  function Concluded(games: map<nat, Game>, appTypes: map<nat, AppType>, shortcuts: map<nat, Text>,
                     ambiguous: set<nat>, id: nat): Option<Game>
  {
    if id in ambiguous || (id in games && id in shortcuts) then None
    else if id in games then
      if id in appTypes && appTypes[id] == AppInfo.NonGame then None
      else Some(games[id].(kind := if id in appTypes && appTypes[id] == AppInfo.Game then SteamGame else Unverified))
    else if id in shortcuts then Some(Game(shortcuts[id], SteamShortcut, None, None))
    else None
  }

  lemma ConcludedIsMerged(games: map<nat, Game>, appTypes: map<nat, AppType>, shortcuts: map<nat, Text>,
                          ambiguous: set<nat>, types: set<AppType>, names: set<Text>, id: nat)
    requires Tracks(appTypes, shortcuts, ambiguous, types, names, id)
    ensures Concluded(games, appTypes, shortcuts, ambiguous, id) == Merged(games, types, names, id)
  {
    assert Ambiguous(games, types, names, id) <==> id in ambiguous || (id in games && id in shortcuts);
    if id in shortcuts {
      assert shortcuts[id] in names;
    }
  }

  /** The steps after the roots are read: drop what is ambiguous, give games their kind, and
      add the shortcuts. */
  method Conclude(games: map<nat, Game>, appTypes: map<nat, AppType>, shortcuts: map<nat, Text>, ambiguous: set<nat>)
    returns (merged: map<nat, Game>)
    ensures forall id :: id in merged <==> Concluded(games, appTypes, shortcuts, ambiguous, id).Some?
    ensures forall id :: id in merged ==> Some(merged[id]) == Concluded(games, appTypes, shortcuts, ambiguous, id)
  {
    var dropped := ambiguous + set id | id in games && id in shortcuts;
    var known, clear := games - dropped, shortcuts - dropped;
    merged := map id | id in known && !(id in appTypes && appTypes[id] == AppInfo.NonGame) ::
      known[id].(kind := if id in appTypes && appTypes[id] == AppInfo.Game then SteamGame else Unverified);
    merged := merged + map id | id in clear :: Game(clear[id], SteamShortcut, None, None);
  }

  method MergeBinaryMetadata(roots: seq<Metadata>, games: map<nat, Game>) returns (merged: map<nat, Game>)
    ensures forall id :: id in merged <==> Merged(games, Types(roots, id), Names(roots, id), id).Some?
    ensures forall id :: id in merged ==> Some(merged[id]) == Merged(games, Types(roots, id), Names(roots, id), id)
  {
    hide Tracks, Merged, Concluded;
    var state := new MetadataMerge();
    var i := 0;
    while i < |roots|
      invariant 0 <= i <= |roots| && state.Valid() && fresh(state)
      invariant forall id :: state.types(id) == Types(roots[..i], id) && state.names(id) == Names(roots[..i], id)
    {
      state.SeeRoot(roots[i]);
      assert roots[..i + 1][..i] == roots[..i];
      i := i + 1;
    }
    assert roots[..i] == roots;
    merged := Conclude(games, state.appTypes, state.shortcuts, state.ambiguous);
    forall id: nat
      ensures Concluded(games, state.appTypes, state.shortcuts, state.ambiguous, id)
              == Merged(games, Types(roots, id), Names(roots, id), id)
    {
      ConcludedIsMerged(games, state.appTypes, state.shortcuts, state.ambiguous, state.types(id), state.names(id), id);
    }
  }
}
