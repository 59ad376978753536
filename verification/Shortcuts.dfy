/** Steam's shortcut file: which shortcuts a binary VDF document declares
    (crates/overcrow-control/src/steam_binary.rs). */
module Shortcuts {
  import opened Common
  import opened Bytes
  import opened Orders
  import opened BinaryVdf
  import opened SteamBinary
  import opened AppInfo

  const MAX_SHORTCUT_RECORDS := 1024
  const MAX_CONTROL_GAME_NAME_BYTES := 256

  datatype Shortcut = Shortcut(appId: nat, name: Text)

  // --- what a document declares -----------------------------------------------------

  function Decimal(digits: Text): Option<nat>
  {
    if digits == [] then Some(0)
    else
      var last := digits[|digits| - 1];
      match Decimal(digits[..|digits| - 1])
      case Some(value) => if 48 <= last <= 57 then Some(10 * value + last - 48) else None
      case None => None
  }

  /** `parse::<u32>`: digits, after an optional plus sign. */
  function ParseU32(text: Text): Option<nat>
  {
    var digits := if |text| > 0 && text[0] == 43 then text[1..] else text;
    var value := Decimal(digits);
    if digits == [] || value.None? || value.value >= U32_LIMIT then None else value
  }

  /** The record an entry belongs to. */
  function Slot(event: Event): Option<nat>
  {
    if |event.path| == 2 && EqIgnoreCase(event.path[0], Ascii("shortcuts")) then ParseU32(event.path[1]) else None
  }

  predicate IsId(event: Event) { EqIgnoreCase(event.key, Ascii("appid")) }

  predicate IsName(event: Event) { !IsId(event) && EqIgnoreCase(event.key, Ascii("appname")) }

  predicate ReadableName(scalar: Scalar)
  {
    scalar.String? && |scalar.raw| <= MAX_CONTROL_GAME_NAME_BYTES && ValidUtf8(scalar.raw)
  }

  function Trim(text: Text): Text { TrimEnd(TrimStart(text)) }

  function Slots(events: seq<Event>): set<nat>
  {
    if events == [] then {}
    else
      var slot := Slot(events[|events| - 1]);
      Slots(events[..|events| - 1]) + if slot.Some? then {slot.value} else {}
  }

  function Ids(events: seq<Event>, slot: nat): seq<Scalar>
  {
    if events == [] then []
    else
      var last := events[|events| - 1];
      Ids(events[..|events| - 1], slot) + if Slot(last) == Some(slot) && IsId(last) then [last.scalar] else []
  }

  function Names(events: seq<Event>, slot: nat): seq<Scalar>
  {
    if events == [] then []
    else
      var last := events[|events| - 1];
      Names(events[..|events| - 1], slot) + if Slot(last) == Some(slot) && IsName(last) then [last.scalar] else []
  }

  /** A record declares a shortcut if it has exactly one id, an integer other than zero,
      and exactly one name, readable and not blank. */
  function Declared(ids: seq<Scalar>, names: seq<Scalar>): Option<Shortcut>
  {
    if && |ids| == 1 && ids[0].Int32? && ids[0].value != 0
       && |names| == 1 && ReadableName(names[0]) && Trim(names[0].raw) != []
    then Some(Shortcut(ids[0].value, Trim(names[0].raw))) else None
  }

  /** The shortcuts of the records that declare one, in the order of the records, and the
      number of the other records. */
  datatype Found = Found(shortcuts: seq<Shortcut>, rejected: nat)

  predicate Below(a: nat, b: nat) { a < b }

  /** What some records give, in the order of the records. */
  ghost function Gathered(give: nat -> Option<Shortcut>, slots: set<nat>): seq<Shortcut>
  {
    if slots == {} then []
    else
      HasLeast(Below, slots);
      var slot :| IsLeast(Below, slots, slot);
      (if give(slot).Some? then [give(slot).value] else []) + Gathered(give, slots - {slot})
  }

  function Misses(give: nat -> Option<Shortcut>, slots: set<nat>): nat
  {
    |set slot | slot in slots && give(slot).None?|
  }

  lemma GatherNothing(give: nat -> Option<Shortcut>)
    ensures Gathered(give, {}) == [] && Misses(give, {}) == 0
  {
    assert (set slot | slot in {} && give(slot).None?) == {};
  }

  function First(give: nat -> Option<Shortcut>, slot: nat): seq<Shortcut>
  {
    if give(slot).Some? then [give(slot).value] else []
  }

  lemma GatherStep(give: nat -> Option<Shortcut>, slots: set<nat>, slot: nat)
    requires IsLeast(Below, slots, slot)
    ensures Gathered(give, slots) == First(give, slot) + Gathered(give, slots - {slot})
    ensures Misses(give, slots) == Misses(give, slots - {slot}) + if give(slot).None? then 1 else 0
  {
    var missing := set s | s in slots && give(s).None?;
    assert (set s | s in slots - {slot} && give(s).None?) == missing - {slot};
  }

  /** Gathering follows the ascending sequence of the records that give something. */
  lemma {:induction false} GatheredInOrder(give: nat -> Option<Shortcut>, slots: set<nat>) returns (order: seq<nat>)
    ensures forall i, j :: 0 <= i < j < |order| ==> order[i] < order[j]
    ensures forall slot :: slot in order <==> slot in slots && give(slot).Some?
    ensures |Gathered(give, slots)| == |order|
    ensures forall i :: 0 <= i < |order| ==> give(order[i]) == Some(Gathered(give, slots)[i])
    decreases |slots|
  {
    hide Gathered, Misses;
    GatherNothing(give);
    if slots == {} {
      return [];
    }
    HasLeast(Below, slots);
    var slot :| IsLeast(Below, slots, slot);
    GatherStep(give, slots, slot);
    order := GatheredInOrder(give, slots - {slot});
    assert forall i :: 0 <= i < |order| ==> order[i] in order;
    if give(slot).Some? {
      order := [slot] + order;
    }
  }

  lemma {:induction false} GatheredSame(a: nat -> Option<Shortcut>, b: nat -> Option<Shortcut>, slots: set<nat>)
    requires forall slot :: slot in slots ==> a(slot) == b(slot)
    ensures Gathered(a, slots) == Gathered(b, slots) && Misses(a, slots) == Misses(b, slots)
    decreases |slots|
  {
    hide Gathered, Misses;
    GatherNothing(a);
    GatherNothing(b);
    if slots != {} {
      HasLeast(Below, slots);
      var slot :| IsLeast(Below, slots, slot);
      GatherStep(a, slots, slot);
      GatherStep(b, slots, slot);
      GatheredSame(a, b, slots - {slot});
    }
  }

  /** What each record declares. */
  function Declaring(events: seq<Event>): nat -> Option<Shortcut>
  {
    (slot: nat) => Declared(Ids(events, slot), Names(events, slot))
  }

  ghost function DeclaredBy(events: seq<Event>): Found
  {
    Found(Gathered(Declaring(events), Slots(events)), Misses(Declaring(events), Slots(events)))
  }

  // --- what the parser builds -------------------------------------------------------

  datatype Builder = Builder(appId: Option<nat>, name: Option<Text>, invalid: bool)

  const BLANK := Builder(None, None, false)

  function Noted(b: Builder, event: Event): Builder
  {
    if IsId(event) then
      if event.scalar.Int32? then b.(appId := Some(event.scalar.value), invalid := b.invalid || b.appId.Some?)
      else b.(invalid := true)
    else if IsName(event) then
      if ReadableName(event.scalar) then b.(name := Some(Trim(event.scalar.raw)), invalid := b.invalid || b.name.Some?)
      else b.(invalid := true)
    else b
  }

  function VisitShortcut(builders: map<nat, Builder>, event: Event): Result<map<nat, Builder>>
  {
    var slot := Slot(event);
    if slot.None? then Ok(builders)
    else if slot.value !in builders && |builders| == MAX_SHORTCUT_RECORDS then Err
    else Ok(builders[slot.value := Noted(if slot.value in builders then builders[slot.value] else BLANK, event)])
  }

  function Accepted(b: Builder): Option<Shortcut>
  {
    if b.appId.None? || b.name.None? || b.invalid || b.appId.value == 0 || b.name.value == [] then None
    else Some(Shortcut(b.appId.value, b.name.value))
  }

  function Accepting(builders: map<nat, Builder>): nat -> Option<Shortcut>
  {
    (slot: nat) => if slot in builders then Accepted(builders[slot]) else None
  }

  ghost function Collected(builders: map<nat, Builder>): Found
  {
    Found(Gathered(Accepting(builders), builders.Keys), Misses(Accepting(builders), builders.Keys))
  }

  /** A builder sums up the ids and names it has seen. */
  predicate SumsUp(b: Builder, ids: seq<Scalar>, names: seq<Scalar>)
  {
    && (b.invalid
        <==> || |ids| > 1 || |names| > 1
             || (|ids| == 1 && !ids[0].Int32?) || (|names| == 1 && !ReadableName(names[0])))
    && (ids == [] ==> b.appId.None?) && (|ids| == 1 && ids[0].Int32? ==> b.appId == Some(ids[0].value))
    && (names == [] ==> b.name.None?) && (|names| == 1 && ReadableName(names[0]) ==> b.name == Some(Trim(names[0].raw)))
  }

  lemma AcceptedIsDeclared(b: Builder, ids: seq<Scalar>, names: seq<Scalar>)
    requires SumsUp(b, ids, names)
    ensures Accepted(b) == Declared(ids, names)
  {
    hide ReadableName, Trim;
  }

  lemma NotedSumsUp(b: Builder, ids: seq<Scalar>, names: seq<Scalar>, event: Event)
    requires SumsUp(b, ids, names)
    ensures SumsUp(Noted(b, event), ids + if IsId(event) then [event.scalar] else [],
                   names + if IsName(event) then [event.scalar] else [])
  {
    hide ReadableName, Trim;
    hide EqIgnoreCase;
  }

  ghost predicate Built(events: seq<Event>, builders: map<nat, Builder>)
  {
    && builders.Keys == Slots(events)
    && forall slot :: slot in builders ==> SumsUp(builders[slot], Ids(events, slot), Names(events, slot))
  }

  lemma {:induction false} NothingElsewhere(events: seq<Event>, slot: nat)
    requires slot !in Slots(events)
    ensures Ids(events, slot) == [] && Names(events, slot) == []
    ensures SumsUp(BLANK, Ids(events, slot), Names(events, slot))
  {
    if events != [] {
      NothingElsewhere(events[..|events| - 1], slot);
    }
  }

  /** One more entry. */
  lemma VisitBuilds(events: seq<Event>, event: Event, builders: map<nat, Builder>)
    requires Built(events, builders) && VisitShortcut(builders, event).Ok?
    ensures Built(events + [event], VisitShortcut(builders, event).value)
  {
    hide IsId, IsName, SumsUp, Noted;
    var longer, after := events + [event], VisitShortcut(builders, event).value;
    assert longer[..|events|] == events;
    forall slot | slot in after
      ensures SumsUp(after[slot], Ids(longer, slot), Names(longer, slot))
    {
      if Slot(event) == Some(slot) {
        if slot !in builders {
          NothingElsewhere(events, slot);
        }
        var before := if slot in builders then builders[slot] else BLANK;
        NotedSumsUp(before, Ids(events, slot), Names(events, slot), event);
      } else {
        assert Ids(longer, slot) == Ids(events, slot) && Names(longer, slot) == Names(events, slot);
      }
    }
  }

  lemma {:induction false} FoldBuilds(done: seq<Event>, events: seq<Event>, builders: map<nat, Builder>)
    requires Built(done, builders) && |builders| <= MAX_SHORTCUT_RECORDS
    ensures var r := Fold<map<nat, Builder>>(VisitShortcut, events, builders);
            if |Slots(done + events)| <= MAX_SHORTCUT_RECORDS then r.Ok? && Built(done + events, r.value) else r.Err?
    decreases |events|
  {
    hide Built, VisitShortcut;
    if events == [] {
      assert done + events == done;
      BuiltSize(done, builders);
    } else {
      var longer := done + [events[0]];
      assert longer + events[1..] == done + events;
      VisitCounts(done, events[0], builders);
      match VisitShortcut(builders, events[0]) {
        case Ok(next) =>
          VisitBuilds(done, events[0], builders);
          FoldBuilds(longer, events[1..], next);
        case Err =>
          SlotsGrow(longer, events[1..]);
      }
    }
  }

  lemma BuiltSize(done: seq<Event>, builders: map<nat, Builder>)
    requires Built(done, builders)
    ensures |builders| == |Slots(done)|
  {
    hide SumsUp;
    assert |builders| == |builders.Keys|;
  }

  /** A visit fails exactly if it would make one record too many. */
  lemma VisitCounts(done: seq<Event>, event: Event, builders: map<nat, Builder>)
    requires Built(done, builders) && |builders| <= MAX_SHORTCUT_RECORDS
    ensures var r := VisitShortcut(builders, event);
            && (r.Err? <==> |Slots(done + [event])| > MAX_SHORTCUT_RECORDS)
            && (r.Ok? ==> |r.value| <= MAX_SHORTCUT_RECORDS)
  {
    hide SumsUp, Noted;
    BuiltSize(done, builders);
    var longer := done + [event];
    assert longer[..|done|] == done;
    var r := VisitShortcut(builders, event);
    if r.Ok? {
      VisitBuilds(done, event, builders);
      BuiltSize(longer, r.value);
      if Slot(event).Some? && Slot(event).value in builders {
        assert Slots(longer) == Slots(done);
      }
    }
  }

  lemma {:induction false} SlotsGrow(done: seq<Event>, events: seq<Event>)
    ensures Slots(done) <= Slots(done + events) && |Slots(done)| <= |Slots(done + events)|
    decreases |events|
  {
    if events == [] {
      assert done + events == done;
    } else {
      var front := events[..|events| - 1];
      SlotsGrow(done, front);
      assert (done + events)[..|done + events| - 1] == done + front;
      var all := Slots(done + events);
      assert all == Slots(done + front) + (all - Slots(done + front));
    }
  }

  lemma CollectedIsDeclared(events: seq<Event>, builders: map<nat, Builder>)
    requires Built(events, builders)
    ensures Collected(builders) == DeclaredBy(events)
  {
    hide SumsUp, Accepted, Declared, Gathered, Misses;
    var give, given := Accepting(builders), Declaring(events);
    forall slot | slot in Slots(events)
      ensures give(slot) == given(slot)
    {
      AcceptedIsDeclared(builders[slot], Ids(events, slot), Names(events, slot));
    }
    GatheredSame(give, given, Slots(events));
  }

  // --- the parser -------------------------------------------------------------------

  ghost function ParsedShortcuts(bytes: seq<Byte>): Result<Found>
  {
    match Walk<map<nat, Builder>>(Inline, VisitShortcut, bytes, map[])
    case Ok(builders) => Ok(Collected(builders))
    case Err => Err
  }

  /** The builders in the order of their records, and the count of those turned down. */
  method CollectBuilders(builders: map<nat, Builder>) returns (found: Found)
    ensures found == Collected(builders)
  {
    hide Accepted, Gathered, Misses;
    ghost var give := Accepting(builders);
    GatherNothing(give);
    var rest, shortcuts, rejected := builders.Keys, [], 0;
    while rest != {}
      invariant rest <= builders.Keys
      invariant shortcuts + Gathered(give, rest) == Gathered(give, builders.Keys)
      invariant rejected + Misses(give, rest) == Misses(give, builders.Keys)
      decreases |rest|
    {
      HasLeast(Below, rest);
      var slot :| IsLeast(Below, rest, slot);
      GatherStep(give, rest, slot);
      var accepted := Accepted(builders[slot]);
      if accepted.Some? {
        shortcuts := shortcuts + [accepted.value];
      } else {
        rejected := rejected + 1;
      }
      rest := rest - {slot};
    }
    found := Found(shortcuts, rejected);
  }

  method ParseShortcuts(bytes: seq<Byte>) returns (r: Result<Found>)
    ensures r == ParsedShortcuts(bytes)
  {
    hide Walk;
    var builders := WalkBinaryVdf<map<nat, Builder>>(bytes, Inline, VisitShortcut, map[]);
    if builders.Err? {
      return Err;
    }
    var found := CollectBuilders(builders.value);
    r := Ok(found);
  }

  lemma Visited(events: seq<Event>, found: Found)
    ensures var r := Fold<map<nat, Builder>>(VisitShortcut, events, map[]);
            r.Ok? && Collected(r.value) == found
            <==> |Slots(events)| <= MAX_SHORTCUT_RECORDS && DeclaredBy(events) == found
  {
    hide Fold, Collected, DeclaredBy, SumsUp;
    assert Built([], map[]);
    assert [] + events == events;
    FoldBuilds([], events, map[]);
    var r := Fold<map<nat, Builder>>(VisitShortcut, events, map[]);
    if r.Ok? {
      CollectedIsDeclared(events, r.value);
    }
  }

  /** `parse_shortcuts` succeeds exactly on the encodings of documents with at most 1024
      records, and returns exactly the shortcuts those declare. */
  lemma ShortcutsCharacterized(bytes: seq<Byte>, found: Found)
    ensures ParsedShortcuts(bytes) == Ok(found)
            <==> exists doc, closed :: Encodes(Inline, doc, closed, bytes)
                                       && |Slots(Flatten(Inline, doc, []))| <= MAX_SHORTCUT_RECORDS
                                       && DeclaredBy(Flatten(Inline, doc, [])) == found
  {
    hide Walk, Fold, Flatten, Slots, DeclaredBy, Collected;
    if ParsedShortcuts(bytes) == Ok(found) {
      var state := Walk<map<nat, Builder>>(Inline, VisitShortcut, bytes, map[]).value;
      WalkCharacterized<map<nat, Builder>>(Inline, VisitShortcut, bytes, map[], state);
      var doc, closed :| Encodes(Inline, doc, closed, bytes)
                         && Fold<map<nat, Builder>>(VisitShortcut, Flatten(Inline, doc, []), map[]) == Ok(state);
      Visited(Flatten(Inline, doc, []), found);
    }
    forall doc, closed | Encodes(Inline, doc, closed, bytes)
                         && |Slots(Flatten(Inline, doc, []))| <= MAX_SHORTCUT_RECORDS
                         && DeclaredBy(Flatten(Inline, doc, [])) == found
      ensures ParsedShortcuts(bytes) == Ok(found)
    {
      Visited(Flatten(Inline, doc, []), found);
      var state := Fold<map<nat, Builder>>(VisitShortcut, Flatten(Inline, doc, []), map[]).value;
      WalkCharacterized<map<nat, Builder>>(Inline, VisitShortcut, bytes, map[], state);
    }
  }
}
