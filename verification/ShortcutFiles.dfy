/** A shortcut file as Steam writes it, and what reading it gives
    (crates/overcrow-control/src/steam_binary.rs). */
module ShortcutFiles {
  import opened Common
  import opened Bytes
  import opened BinaryVdf
  import AppInfo
  import opened AppTypes
  import opened Shortcuts

  // --- trimmed names ----------------------------------------------------------------

  /** Text that neither starts nor ends with white space. */
  ghost predicate Bare(s: Text)
  {
    forall k :: 0 < k <= |s| ==> !Space(s[..k]) && !Space(s[|s| - k..])
  }

  /** `name` is what is left of `raw` without the white space around it. */
  ghost predicate Strips(raw: Text, name: Text)
  {
    Bare(name) && exists before, after :: Between(raw, before, name, after)
  }

  lemma {:induction false} WhiteJoins(a: Text, b: Text)
    requires White(a) && White(b)
    ensures White(a + b)
    decreases |a|
  {
    hide White, Space;
    if a == [] {
      assert a + b == b;
    } else {
      var c, rest := Unwhiten(a);
      WhiteJoins(rest, b);
      Whiten(c, rest + b);
      assert a + b == c + (rest + b);
    }
  }

  lemma {:induction false} TrimStartDone(s: Text)
    ensures AppInfo.SpaceLength(AppInfo.TrimStart(s)) == 0
    decreases |s|
  {
    hide AppInfo.SpaceLength;
    if AppInfo.SpaceLength(s) != 0 {
      TrimStartDone(s[AppInfo.SpaceLength(s)..]);
    }
  }

  lemma {:induction false} TrimEndDone(s: Text)
    ensures AppInfo.SpaceBehind(AppInfo.TrimEnd(s)) == 0
    decreases |s|
  {
    hide AppInfo.SpaceBehind;
    if AppInfo.SpaceBehind(s) != 0 {
      TrimEndDone(s[..|s| - AppInfo.SpaceBehind(s)]);
    }
  }

  lemma TrimStrips(raw: Text)
    ensures Strips(raw, Trim(raw))
    ensures Trim(raw) == [] <==> White(raw)
  {
    hide White, Space, AppInfo.SpaceLength, AppInfo.SpaceBehind, AppInfo.TrimStart, AppInfo.TrimEnd;
    var started := AppInfo.TrimStart(raw);
    var name := Trim(raw);
    var before := TrimmedAheadIsWhite(raw);
    var after := TrimmedBehindIsWhite(started);
    assert raw == before + name + after;
    assert Between(raw, before, name, after);
    TrimStartDone(raw);
    TrimEndDone(started);
    forall k | 0 < k <= |name|
      ensures !Space(name[..k]) && !Space(name[|name| - k..])
    {
      SpaceEnds(name, k);
      SpaceAhead(started, k);
      assert started[..k] == name[..k];
    }
    if name == [] {
      WhiteJoins(before, after);
      assert raw == before + after;
    }
    if White(raw) {
      WhiteTrimsAway(raw);
    }
  }

  lemma WhiteTrimsAway(raw: Text)
    requires White(raw)
    ensures Trim(raw) == []
  {
    hide White, Space;
    WhiteIsTrimmedAhead(raw, []);
    assert raw + [] == raw;
    assert AppInfo.TrimStart([]) == [] && AppInfo.TrimEnd([]) == [];
  }

  // --- record numbers ---------------------------------------------------------------

  function Digits(n: nat): (digits: Text)
    ensures |digits| > 0
  {
    if n < 10 then [48 + n] else Digits(n / 10) + [48 + n % 10]
  }

  predicate AllAscii(s: Text) { forall i :: 0 <= i < |s| ==> 0 < s[i] < 128 }

  lemma {:induction false} AsciiIsText(s: Text)
    requires AllAscii(s)
    ensures NoZero(s) && ValidUtf8(s)
  {
    if s != [] {
      assert CharLength(s) == 1;
      AsciiIsText(s[1..]);
    }
  }

  lemma {:induction false} DigitsAreRead(n: nat)
    ensures Decimal(Digits(n)) == Some(n) && AllAscii(Digits(n)) && 48 <= Digits(n)[0] <= 57
  {
    if n >= 10 {
      DigitsAreRead(n / 10);
      assert Digits(n)[..|Digits(n)| - 1] == Digits(n / 10);
    } else {
      assert Digits(n)[..0] == [];
    }
  }

  lemma NumberIsSlot(n: nat)
    requires n < 10_000
    ensures ParseU32(Digits(n)) == Some(n) && |Digits(n)| <= 4
  {
    DigitsAreRead(n);
    assert forall m: nat :: m < 10 ==> |Digits(m)| == 1;
    assert n >= 10 ==> |Digits(n)| == |Digits(n / 10)| + 1;
    assert n >= 100 ==> |Digits(n / 10)| == |Digits(n / 10 / 10)| + 1;
    assert n >= 1000 ==> |Digits(n / 10 / 10)| == |Digits(n / 10 / 10 / 10)| + 1;
  }

  // --- files ------------------------------------------------------------------------

  /** One record: an identifier and a name, however it is padded. */
  datatype Written = Written(id: nat, raw: Text)

  /** The keys of a shortcut file. */
  datatype Keys = Keys(top: Text, id: Text, name: Text)

  ghost predicate KeysOk(keys: Keys)
  {
    && Spells(keys.top, "shortcuts") && Spells(keys.id, "appid") && Spells(keys.name, "appname")
  }

  predicate RecordsOk(records: seq<Written>)
  {
    && |records| <= 1024
    && forall i :: 0 <= i < |records| ==>
         records[i].id < U32_LIMIT && NoZero(records[i].raw) && |records[i].raw| <= 1048576
  }

  function RecordDoc(keys: Keys, record: Written): Doc
  {
    Entry(Name(keys.id), Int(record.id), Entry(Name(keys.name), Str(record.raw), End))
  }

  /** The records from the `i`-th on. */
  function RecordsFrom(keys: Keys, records: seq<Written>, i: nat): Doc
    requires i <= |records|
    decreases |records| - i
  {
    if i == |records| then End
    else
      Object(Name(Digits(i)), RecordDoc(keys, records[i]), RecordsFrom(keys, records, i + 1))
  }

  function FileDoc(keys: Keys, records: seq<Written>): Doc
  {
    Object(Name(keys.top), RecordsFrom(keys, records, 0), End)
  }

  function IdEvent(keys: Keys, records: seq<Written>, i: nat): Event
    requires i < |records|
  {
    Event([keys.top, Digits(i)], keys.id, Int32(records[i].id))
  }

  function NameEvent(keys: Keys, records: seq<Written>, i: nat): Event
    requires i < |records|
  {
    Event([keys.top, Digits(i)], keys.name, String(records[i].raw))
  }

  /** The entries of a file in order. */
  function FileEvents(keys: Keys, records: seq<Written>): (events: seq<Event>)
    ensures |events| == 2 * |records|
  {
    seq(2 * |records|, k requires 0 <= k < 2 * |records| =>
      if k % 2 == 0 then IdEvent(keys, records, k / 2) else NameEvent(keys, records, k / 2))
  }

  lemma KeyTexts(keys: Keys)
    requires KeysOk(keys)
    ensures KeyFits(Inline, Name(keys.top)) && KeyFits(Inline, Name(keys.id)) && KeyFits(Inline, Name(keys.name))
  {
    assert AllAscii(keys.top) && AllAscii(keys.id) && AllAscii(keys.name);
    AsciiIsText(keys.top);
    AsciiIsText(keys.id);
    AsciiIsText(keys.name);
  }

  lemma RecordFlattens(keys: Keys, record: Written, path: seq<Text>)
    requires KeysOk(keys) && ValueFits(Int(record.id)) && ValueFits(Str(record.raw))
    ensures Fits(Inline, RecordDoc(keys, record))
    ensures Flatten(Inline, RecordDoc(keys, record), path)
            == [Event(path, keys.id, Int32(record.id)), Event(path, keys.name, String(record.raw))]
    ensures Depth(RecordDoc(keys, record)) == 0 && Entries(RecordDoc(keys, record)) == 2
  {
    KeyTexts(keys);
    hide KeysOk, KeyFits;
    var last := Entry(Name(keys.name), Str(record.raw), End);
    assert Fits(Inline, End) && Fits(Inline, last);
    assert Flatten(Inline, End, path) == [];
    assert Flatten(Inline, last, path) == [Event(path, keys.name, String(record.raw))];
    assert Flatten(Inline, RecordDoc(keys, record), path)
           == [Event(path, keys.id, Int32(record.id))] + Flatten(Inline, last, path);
    assert Depth(last) == 0 && Entries(last) == 1;
  }

  lemma EventsFrom(keys: Keys, records: seq<Written>, i: nat)
    requires i < |records|
    ensures FileEvents(keys, records)[2 * i..]
            == [IdEvent(keys, records, i), NameEvent(keys, records, i)] + FileEvents(keys, records)[2 * (i + 1)..]
  {
    hide IdEvent, NameEvent;
    var all := FileEvents(keys, records);
    assert all[2 * i] == IdEvent(keys, records, i) && all[2 * i + 1] == NameEvent(keys, records, i);
  }

  lemma NumberFits(i: nat)
    requires i < 10_000
    ensures KeyFits(Inline, Name(Digits(i)))
  {
    DigitsAreRead(i);
    AsciiIsText(Digits(i));
    NumberIsSlot(i);
  }

  lemma {:induction false} RecordsFlatten(keys: Keys, records: seq<Written>, i: nat)
    requires KeysOk(keys) && RecordsOk(records) && i <= |records|
    ensures Fits(Inline, RecordsFrom(keys, records, i))
    ensures Flatten(Inline, RecordsFrom(keys, records, i), [keys.top]) == FileEvents(keys, records)[2 * i..]
    ensures Depth(RecordsFrom(keys, records, i)) <= 1
    ensures Entries(RecordsFrom(keys, records, i)) == 4 * (|records| - i)
    decreases |records| - i
  {
    if i < |records| {
      hide KeysOk, KeyFits, NoZero, Digits, FileEvents, RecordDoc;
      RecordsFlatten(keys, records, i + 1);
      NumberFits(i);
      var path := [keys.top] + [Digits(i)];
      assert path == [keys.top, Digits(i)];
      RecordFlattens(keys, records[i], path);
      EventsFrom(keys, records, i);
    }
  }

  /** The bytes of a record's entries, and those around the entries of an object. */
  lemma WireFormat(keys: Keys, record: Written, key: Text, children: Doc)
    ensures Encode(RecordDoc(keys, record))
            == ([2] + (keys.id + [0] + ToLe(4, record.id))) + ([1] + (keys.name + [0] + (record.raw + [0])))
    ensures Encode(Object(Name(key), children, End)) == ([0] + (key + [0])) + (Encode(children) + [8])
  {
    hide ToLe;
    var last := Entry(Name(keys.name), Str(record.raw), End);
    assert Encode(End) == [];
    assert Encode(last) == [1] + (keys.name + [0] + (record.raw + [0]));
    assert [8] + Encode(End) == [8];
  }

  // --- reading them -----------------------------------------------------------------

  lemma EntriesAreRead(keys: Keys, records: seq<Written>, i: nat)
    requires KeysOk(keys) && i < |records| <= 1024
    ensures Slot(IdEvent(keys, records, i)) == Some(i) && Slot(NameEvent(keys, records, i)) == Some(i)
    ensures IsId(IdEvent(keys, records, i)) && !IsName(IdEvent(keys, records, i))
    ensures IsName(NameEvent(keys, records, i)) && !IsId(NameEvent(keys, records, i))
  {
    SpelledIsSameKey(keys.top, "shortcuts");
    SpelledIsSameKey(keys.id, "appid");
    SpelledIsSameKey(keys.name, "appname");
    SpelledIsSameKey(keys.name, "appid");
    NumberIsSlot(i);
    hide AppInfo.EqIgnoreCase, ParseU32, Digits;
  }

  function Upto(n: nat): (r: set<nat>)
    ensures (forall i: nat :: i in r <==> i < n) && |r| == n
  {
    if n == 0 then {} else Upto(n - 1) + {n - 1}
  }

  lemma UptoStep(n: nat)
    ensures Upto(n + 1) == Upto(n) + {n}
  {
  }

  lemma OneMoreEntry(events: seq<Event>, event: Event, slot: nat)
    ensures Slots(events + [event]) == Slots(events) + if Slot(event).Some? then {Slot(event).value} else {}
    ensures Ids(events + [event], slot)
            == Ids(events, slot) + if Slot(event) == Some(slot) && IsId(event) then [event.scalar] else []
    ensures Shortcuts.Names(events + [event], slot)
            == Shortcuts.Names(events, slot) + if Slot(event) == Some(slot) && IsName(event) then [event.scalar] else []
  {
    hide Slot, IsId, IsName;
    assert (events + [event])[..|events|] == events;
  }

  /** What the first `m` records come to. */
  lemma {:induction false} RecordsTallied(keys: Keys, records: seq<Written>, m: nat, slot: nat)
    requires KeysOk(keys) && m <= |records| <= 1024
    ensures var events := FileEvents(keys, records)[..2 * m];
            && Slots(events) == Upto(m)
            && Ids(events, slot) == (if slot < m then [Int32(records[slot].id)] else [])
            && Shortcuts.Names(events, slot) == (if slot < m then [String(records[slot].raw)] else [])
  {
    hide KeysOk, Slot, IsId, IsName, Slots, Ids, Shortcuts.Names, FileEvents, IdEvent, NameEvent, Upto;
    var all := FileEvents(keys, records);
    if m == 0 {
      assert all[..0] == [];
      NothingTallied(slot);
    } else {
      RecordsTallied(keys, records, m - 1, slot);
      EntriesAreRead(keys, records, m - 1);
      EventAt(keys, records, m - 1);
      UptoStep(m - 1);
      var before, id, name := all[..2 * m - 2], IdEvent(keys, records, m - 1), NameEvent(keys, records, m - 1);
      assert all[..2 * m] == before + [id] + [name];
      OneMoreEntry(before, id, slot);
      OneMoreEntry(before + [id], name, slot);
    }
  }

  lemma NothingTallied(slot: nat)
    ensures Slots([]) == {} && Ids([], slot) == [] && Shortcuts.Names([], slot) == []
  {
  }

  lemma EventAt(keys: Keys, records: seq<Written>, i: nat)
    requires i < |records|
    ensures FileEvents(keys, records)[2 * i] == IdEvent(keys, records, i)
    ensures FileEvents(keys, records)[2 * i + 1] == NameEvent(keys, records, i)
    ensures IdEvent(keys, records, i).scalar == Int32(records[i].id)
    ensures NameEvent(keys, records, i).scalar == String(records[i].raw)
  {
  }

  /** A record that gives a shortcut. */
  ghost predicate Usable(record: Written)
  {
    record.id != 0 && |record.raw| <= 256 && ValidUtf8(record.raw) && !White(record.raw)
  }

  /** What a record has to give. */
  ghost predicate Gives(record: Written, shortcut: Option<Shortcut>)
  {
    && (shortcut.Some? <==> Usable(record))
    && (shortcut.Some? ==> shortcut.value.appId == record.id && Strips(record.raw, shortcut.value.name))
  }

  lemma RecordDeclares(record: Written)
    ensures Gives(record, Declared([Int32(record.id)], [String(record.raw)]))
  {
    TrimStrips(record.raw);
    hide Trim, White, Strips, ValidUtf8;
  }

  /** The ascending records that give a shortcut, the shortcuts they give, and the number of
      the other records. */
  ghost predicate Reads(records: seq<Written>, order: seq<nat>, found: Found)
  {
    && (forall i, j :: 0 <= i < j < |order| ==> order[i] < order[j])
    && (forall i: nat :: i in order <==> i < |records| && Usable(records[i]))
    && |found.shortcuts| == |order| && found.rejected == |set i | 0 <= i < |records| && !Usable(records[i])|
    && forall k :: 0 <= k < |order| ==>
         && order[k] < |records| && found.shortcuts[k].appId == records[order[k]].id
         && Strips(records[order[k]].raw, found.shortcuts[k].name)
  }

  lemma GatheredReads(records: seq<Written>, give: nat -> Option<Shortcut>) returns (order: seq<nat>)
    requires forall i: nat :: i < |records| ==> Gives(records[i], give(i))
    ensures Reads(records, order, Found(Gathered(give, Upto(|records|)), Misses(give, Upto(|records|))))
  {
    hide Usable, Strips, Gathered, Upto;
    order := GatheredInOrder(give, Upto(|records|));
    assert (set i | i in Upto(|records|) && give(i).None?)
           == (set i | 0 <= i < |records| && !Usable(records[i]));
    forall k | 0 <= k < |order|
      ensures order[k] < |records| && Gives(records[order[k]], give(order[k]))
    {
      assert order[k] in order;
    }
  }

  lemma EventsDeclare(keys: Keys, records: seq<Written>) returns (order: seq<nat>)
    requires KeysOk(keys) && RecordsOk(records)
    ensures Slots(FileEvents(keys, records)) == Upto(|records|)
    ensures Reads(records, order, DeclaredBy(FileEvents(keys, records)))
  {
    AtMost1024(records);
    hide Gives, Reads, Gathered, Declared, KeysOk, RecordsOk, FileEvents, Upto, Slots, Ids, Shortcuts.Names, Misses;
    var events := FileEvents(keys, records);
    assert events[..2 * |records|] == events;
    RecordsTallied(keys, records, |records|, 0);
    forall i: nat | i < |records|
      ensures Gives(records[i], Declaring(events)(i))
    {
      RecordsTallied(keys, records, |records|, i);
      RecordDeclares(records[i]);
    }
    order := GatheredReads(records, Declaring(events));
  }

  /** Reading a written file gives exactly the shortcuts of its usable records, in order,
      under their stripped names, and counts the others. */
  lemma FileIsRead(keys: Keys, records: seq<Written>, closed: bool) returns (order: seq<nat>, found: Found)
    requires KeysOk(keys) && RecordsOk(records)
    ensures ParsedShortcuts(Encode(FileDoc(keys, records)) + if closed then [8] else []) == Ok(found)
    ensures Reads(records, order, found)
  {
    hide KeysOk, RecordsOk, FileEvents, DeclaredBy, Reads, RecordsFrom, Encode, ParsedShortcuts, KeyFits;
    var doc := FileDoc(keys, records);
    var events := FileEvents(keys, records);
    KeyTexts(keys);
    RecordsFlatten(keys, records, 0);
    AtMost1024(records);
    var top := [] + [keys.top];
    assert top == [keys.top] && events[0..] == events;
    assert Flatten(Inline, End, []) == [] && Flatten(Inline, doc, []) == events;
    order := EventsDeclare(keys, records);
    found := DeclaredBy(events);
    var bytes := Encode(doc) + if closed then [8] else [];
    assert Fits(Inline, End) && Depth(End) == 0 && Entries(End) == 0;
    assert Encodes(Inline, doc, closed, bytes);
    ShortcutsCharacterized(bytes, found);
  }

  lemma AtMost1024(records: seq<Written>)
    requires RecordsOk(records)
    ensures |records| <= 1024
  {
  }
}
