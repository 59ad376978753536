/** Steam's application-info file: a header, length-prefixed records that each
    hold a binary VDF document, and in version 41 a table of keys
    (crates/overcrow-control/src/steam_binary.rs). */
module AppInfo {
  import opened Common
  import opened Bytes
  import opened BinaryVdf
  import opened SteamBinary

  datatype AppType = Game | NonGame | Unknown

  // --- the declared type of one application -------------------------------------

  function LowerByte(b: Byte): Byte { if 65 <= b <= 90 then b + 32 else b }

  /** `to_ascii_lowercase`. */
  function Lower(text: Text): (lower: Text)
    ensures |lower| == |text|
  {
    seq(|text|, i requires 0 <= i < |text| => LowerByte(text[i]))
  }

  predicate EqIgnoreCase(a: Text, b: Text) { Lower(a) == Lower(b) }

  /** Length of the Unicode white-space character `s` starts with, or 0. */
  function SpaceLength(s: Text): (n: nat)
    ensures n <= |s|
  {
    if |s| >= 1 && (9 <= s[0] <= 13 || s[0] == 32) then 1
    else if |s| >= 2 && s[0] == 0xC2 && s[1] in {0x85, 0xA0} then 2
    else if |s| >= 3 && (s[..3] == [0xE1, 0x9A, 0x80]
                         || (s[0] == 0xE2 && s[1] == 0x80 && (0x80 <= s[2] <= 0x8A || s[2] in {0xA8, 0xA9, 0xAF}))
                         || s[..3] == [0xE2, 0x81, 0x9F] || s[..3] == [0xE3, 0x80, 0x80]) then 3
    else 0
  }

  function TrimStart(s: Text): Text
  {
    if SpaceLength(s) == 0 then s else TrimStart(s[SpaceLength(s)..])
  }

  /** Length of the white-space character `s` ends with, or 0. */
  function SpaceBehind(s: Text): (n: nat)
    ensures n <= |s|
  {
    if |s| >= 1 && SpaceLength(s[|s| - 1..]) == 1 then 1
    else if |s| >= 2 && SpaceLength(s[|s| - 2..]) == 2 then 2
    else if |s| >= 3 && SpaceLength(s[|s| - 3..]) == 3 then 3
    else 0
  }

  function TrimEnd(s: Text): Text
  {
    if SpaceBehind(s) == 0 then s else TrimEnd(s[..|s| - SpaceBehind(s)])
  }

  function ClassifyAppType(value: Text): AppType
  {
    var name := Lower(TrimEnd(TrimStart(value)));
    if name in {Ascii("game"), Ascii("demo")} then Game
    else if name in {Ascii("advertising"), Ascii("application"), Ascii("config"), Ascii("dlc"), Ascii("guide"),
                     Ascii("hardware"), Ascii("music"), Ascii("series"), Ascii("tool"), Ascii("video")} then NonGame
    else Unknown
  }

  predicate IsTypeEvent(event: Event)
  {
    && |event.path| == 2
    && EqIgnoreCase(event.path[0], Ascii("appinfo"))
    && EqIgnoreCase(event.path[1], Ascii("common"))
    && EqIgnoreCase(event.key, Ascii("type"))
  }

  predicate ReadableType(scalar: Scalar)
  {
    scalar.String? && |scalar.raw| <= MAX_APP_TYPE_BYTES && ValidUtf8(scalar.raw)
  }

  function VisitType(found: Option<AppType>, event: Event): Result<Option<AppType>>
  {
    if !IsTypeEvent(event) then Ok(found)
    else if !ReadableType(event.scalar) || found.Some? then Err
    else Ok(Some(ClassifyAppType(event.scalar.raw)))
  }

  function TypeEvents(events: seq<Event>): seq<Event>
  {
    if events == [] then []
    else (if IsTypeEvent(events[0]) then [events[0]] else []) + TypeEvents(events[1..])
  }

  /** The type a document declares: none makes it unknown, and a second or an
      unreadable declaration makes the document unusable. */
  function DeclaredType(mode: KeyMode, doc: Doc): Result<AppType>
    requires Fits(mode, doc)
  {
    var declared := TypeEvents(Flatten(mode, doc, []));
    if declared == [] then Ok(Unknown)
    else if |declared| == 1 && ReadableType(declared[0].scalar) then Ok(ClassifyAppType(declared[0].scalar.raw))
    else Err
  }

  lemma {:induction false} VisitedTypes(events: seq<Event>, found: Option<AppType>)
    ensures var declared := TypeEvents(events);
            Fold<Option<AppType>>(VisitType, events, found)
            == if declared == [] then Ok(found)
               else if |declared| == 1 && found.None? && ReadableType(declared[0].scalar)
               then Ok(Some(ClassifyAppType(declared[0].scalar.raw)))
               else Err
  {
    hide IsTypeEvent, ReadableType, ClassifyAppType;
    if events != [] {
      match VisitType(found, events[0]) {
        case Ok(next) => VisitedTypes(events[1..], next);
        case Err =>
      }
    }
  }

  function ExtractedType(mode: KeyMode, bytes: seq<Byte>): Result<AppType>
  {
    match Walk<Option<AppType>>(mode, VisitType, bytes, None)
    case Ok(Some(app)) => Ok(app)
    case Ok(None) => Ok(Unknown)
    case Err => Err
  }

  /** `extract_app_type` succeeds exactly on the encodings of documents that
      declare at most one readable type, and returns that type. */
  lemma ExtractedTypeIsDeclared(mode: KeyMode, bytes: seq<Byte>, app: AppType)
    ensures ExtractedType(mode, bytes) == Ok(app)
            <==> exists doc, closed :: Encodes(mode, doc, closed, bytes) && DeclaredType(mode, doc) == Ok(app)
  {
    hide Walk, Fold, Flatten, TypeEvents, ReadableType, ClassifyAppType;
    if ExtractedType(mode, bytes) == Ok(app) {
      var state := Walk<Option<AppType>>(mode, VisitType, bytes, None).value;
      WalkCharacterized<Option<AppType>>(mode, VisitType, bytes, None, state);
      var doc, closed :| Encodes(mode, doc, closed, bytes)
                         && Fold<Option<AppType>>(VisitType, Flatten(mode, doc, []), None) == Ok(state);
      VisitedTypes(Flatten(mode, doc, []), None);
      assert DeclaredType(mode, doc) == Ok(app);
    }
    forall doc, closed | Encodes(mode, doc, closed, bytes) && DeclaredType(mode, doc) == Ok(app)
      ensures ExtractedType(mode, bytes) == Ok(app)
    {
      VisitedTypes(Flatten(mode, doc, []), None);
      var state := Fold<Option<AppType>>(VisitType, Flatten(mode, doc, []), None).value;
      WalkCharacterized<Option<AppType>>(mode, VisitType, bytes, None, state);
    }
  }

  method ExtractAppType(bytes: seq<Byte>, mode: KeyMode) returns (r: Result<AppType>)
    ensures r == ExtractedType(mode, bytes)
  {
    var found := WalkBinaryVdf<Option<AppType>>(bytes, mode, VisitType, None);
    match found {
      case Ok(Some(app)) => r := Ok(app);
      case Ok(None) => r := Ok(Unknown);
      case Err => r := Err;
    }
  }

  // --- the string table -----------------------------------------------------------

  /** `count` more strings of the table, after those already read. */
  function TableStrings(s: seq<Byte>, count: nat, read: seq<Text>): Result<seq<Text>>
  {
    if count == 0 then Ok(read)
    else match ReadCString(s, MAX_KEY_BYTES)
      case None => Err
      case Some(next) =>
        if ValidUtf8(next.value) then TableStrings(s[next.length..], count - 1, read + [next.value]) else Err
  }

  lemma TableStep(s: seq<Byte>, count: nat, read: seq<Text>)
    ensures TableStrings(s, count, read)
            == if count == 0 then Ok(read)
               else match ReadCString(s, MAX_KEY_BYTES)
                 case None => Err
                 case Some(next) =>
                   if ValidUtf8(next.value) then TableStrings(s[next.length..], count - 1, read + [next.value]) else Err
  {
  }

  function StringTable(bytes: seq<Byte>): Result<seq<Text>>
  {
    if |bytes| < 4 then Err
    else
      var count := FromLe(bytes[..4]);
      if count > MAX_STRING_TABLE_ENTRIES then Err else TableStrings(bytes[4..], count, [])
  }

  predicate TableFits(strings: seq<Text>)
  {
    && |strings| <= MAX_STRING_TABLE_ENTRIES
    && forall i :: 0 <= i < |strings| ==> NoZero(strings[i]) && |strings[i]| <= MAX_KEY_BYTES && ValidUtf8(strings[i])
  }

  function StringsBytes(strings: seq<Text>): seq<Byte>
  {
    if strings == [] then [] else strings[0] + [0] + StringsBytes(strings[1..])
  }

  function TableBytes(strings: seq<Text>): seq<Byte> { ToLe(4, |strings|) + StringsBytes(strings) }

  lemma {:induction false} StringsRoundTrip(strings: seq<Text>, rest: seq<Byte>, read: seq<Text>)
    requires TableFits(strings)
    ensures TableStrings(StringsBytes(strings) + rest, |strings|, read) == Ok(read + strings)
  {
    hide ReadCString, ValidUtf8, NoZero;
    if strings == [] {
      assert read + strings == read;
    } else {
      var tail := StringsBytes(strings[1..]) + rest;
      assert StringsBytes(strings) + rest == strings[0] + [0] + tail;
      CStringPrefix(strings[0], tail, MAX_KEY_BYTES);
      StringsRoundTrip(strings[1..], rest, read + [strings[0]]);
      assert read + [strings[0]] + strings[1..] == read + strings;
    }
  }

  lemma StringTableRoundTrip(strings: seq<Text>, rest: seq<Byte>)
    requires TableFits(strings)
    ensures StringTable(TableBytes(strings) + rest) == Ok(strings)
  {
    var s := TableBytes(strings) + rest;
    Widths();
    LeRoundTrip(4, |strings|);
    StringsRoundTrip(strings, rest, []);
    assert [] + strings == strings;
    assert s[..4] == ToLe(4, |strings|) && s[4..] == StringsBytes(strings) + rest;
  }

  lemma CStringRead(s: seq<Byte>, limit: nat)
    requires ReadCString(s, limit).Some?
    ensures var r := ReadCString(s, limit).value;
            NoZero(r.value) && |r.value| <= limit && r.length <= |s| && s == r.value + [0] + s[r.length..]
  {
    var n := ZeroAt(s);
    assert s == s[..n] + [s[n]] + s[n + 1..];
  }

  lemma {:induction false} StringsPrinted(s: seq<Byte>, count: nat, read: seq<Text>) returns (strings: seq<Text>)
    requires count <= MAX_STRING_TABLE_ENTRIES && TableStrings(s, count, read).Ok?
    ensures TableStrings(s, count, read) == Ok(read + strings)
    ensures |strings| == count && TableFits(strings) && StringsBytes(strings) <= s
    decreases count
  {
    hide ReadCString, ValidUtf8, NoZero;
    if count == 0 {
      strings := [];
      assert read + strings == read;
    } else {
      var first := ReadCString(s, MAX_KEY_BYTES).value;
      CStringRead(s, MAX_KEY_BYTES);
      var rest := StringsPrinted(s[first.length..], count - 1, read + [first.value]);
      strings := [first.value] + rest;
      assert read + [first.value] + rest == read + strings && strings[1..] == rest;
      var tail := s[first.length..];
      assert tail == StringsBytes(rest) + tail[|StringsBytes(rest)|..];
      assert s == StringsBytes(strings) + tail[|StringsBytes(rest)|..];
    }
  }

  /** A table is read exactly from the bytes that start with its printed form. */
  lemma StringTableCharacterized(bytes: seq<Byte>, strings: seq<Text>)
    ensures StringTable(bytes) == Ok(strings) <==> TableFits(strings) && TableBytes(strings) <= bytes
  {
    hide TableStrings, StringsBytes, TableFits, FromLe, ToLe;
    if StringTable(bytes) == Ok(strings) {
      var read := StringsPrinted(bytes[4..], FromLe(bytes[..4]), []);
      assert [] + read == read;
      LeInverse(bytes[..4]);
      assert bytes == bytes[..4] + bytes[4..];
    }
    if TableFits(strings) && TableBytes(strings) <= bytes {
      var rest := bytes[|TableBytes(strings)|..];
      assert bytes == TableBytes(strings) + rest;
      StringTableRoundTrip(strings, rest);
    }
  }

  /** The loop of `parse_string_table`. */
  method ReadStrings(cursor: Cursor, count: nat) returns (r: Result<seq<Text>>)
    requires cursor.Valid()
    modifies cursor
    ensures r == TableStrings(old(cursor.Rest()), count, [])
  {
    hide ReadCString, ValidUtf8, TableStrings;
    var strings: seq<Text> := [];
    while |strings| < count
      invariant cursor.Valid() && |strings| <= count
      invariant TableStrings(cursor.Rest(), count - |strings|, strings) == TableStrings(old(cursor.Rest()), count, [])
    {
      TableStep(cursor.Rest(), count - |strings|, strings);
      var raw := cursor.CString(MAX_KEY_BYTES);
      if raw.Err? || !ValidUtf8(raw.value) {
        return Err;
      }
      strings := strings + [raw.value];
    }
    TableStep(cursor.Rest(), 0, strings);
    r := Ok(strings);
  }

  method ParseStringTable(bytes: seq<Byte>) returns (r: Result<seq<Text>>)
    ensures r == StringTable(bytes)
  {
    hide FromLe, TableStrings;
    var cursor := new Cursor(bytes);
    var count := cursor.ReadU32();
    if count.Err? || count.value > MAX_STRING_TABLE_ENTRIES {
      return Err;
    }
    r := ReadStrings(cursor, count.value);
  }

  // --- the file -------------------------------------------------------------------

  datatype Layout = Layout(mode: KeyMode, start: nat, end: nat)

  type AppTypes = map<nat, AppType>

  /** Where the records are and how their keys are written. */
  function Header(bytes: seq<Byte>): (r: Result<Layout>)
    ensures r.Ok? ==> r.value.start <= r.value.end <= |bytes|
  {
    if |bytes| < 8 then Err
    else
      var magic := FromLe(bytes[..4]);
      if magic == APPINFO_MAGIC_V40 then Ok(Layout(Inline, 8, |bytes|))
      else if magic != APPINFO_MAGIC_V41 || |bytes| < 16 then Err
      else
        var offset := FromLe(bytes[8..16]);
        if !(16 <= offset < |bytes|) then Err
        else match StringTable(bytes[offset..])
          case Ok(strings) => Ok(Layout(Indexed(strings), 16, offset))
          case Err => Err
  }

  function Records(mode: KeyMode, bytes: seq<Byte>, offset: nat, end: nat, count: nat,
                   types: AppTypes): Result<AppTypes>
    requires end <= |bytes|
    decreases end - offset
  {
    if offset >= end then Ok(types)
    else if offset + 4 > |bytes| then Err
    else
      var id := FromLe(bytes[offset..offset + 4]);
      if id == 0 then Ok(types)
      else if count == MAX_APPINFO_RECORDS || offset + 8 > |bytes| then Err
      else
        var size := FromLe(bytes[offset + 4..offset + 8]);
        var next := offset + 8 + size;
        if size < BYTES_AFTER_SIZE || next > end then Err
        else match ExtractedType(mode, bytes[offset + ENTRY_HEADER_BYTES..next])
          case Err => Err
          case Ok(app) => if id in types then Err else Records(mode, bytes, next, end, count + 1, types[id := app])
  }

  function ParsedAppInfo(bytes: seq<Byte>): Result<AppTypes>
  {
    match Header(bytes)
    case Err => Err
    case Ok(Layout(mode, start, end)) => Records(mode, bytes, start, end, 0, map[])
  }

  method ParseAppInfo(bytes: seq<Byte>) returns (r: Result<AppTypes>)
    ensures r == ParsedAppInfo(bytes)
  {
    hide ExtractedType, StringTable, FromLe;
    if |bytes| < 8 {
      return Err;
    }
    var magic := FromLe(bytes[..4]);
    var mode, start, end := Inline, 8, |bytes|;
    if magic == APPINFO_MAGIC_V41 {
      if |bytes| < 16 {
        return Err;
      }
      var offset := FromLe(bytes[8..16]);
      if !(16 <= offset < |bytes|) {
        return Err;
      }
      var strings := ParseStringTable(bytes[offset..]);
      if strings.Err? {
        return Err;
      }
      mode, start, end := Indexed(strings.value), 16, offset;
    } else if magic != APPINFO_MAGIC_V40 {
      return Err;
    }
    r := ParseRecords(bytes, mode, start, end);
  }

  /** The record loop: every slice is inside the file, and the offset grows by at
      least a record header each time and never passes the application section. */
  method ParseRecords(bytes: seq<Byte>, mode: KeyMode, start: nat, end: nat) returns (r: Result<AppTypes>)
    requires start <= end <= |bytes|
    ensures r == Records(mode, bytes, start, end, 0, map[])
  {
    hide ExtractedType, FromLe;
    var offset := start;
    var types: AppTypes := map[];
    var records := 0;
    while offset < end
      invariant start + ENTRY_HEADER_BYTES * records <= offset <= end
      invariant Records(mode, bytes, offset, end, records, types) == Records(mode, bytes, start, end, 0, map[])
      decreases end - offset
    {
      if offset + 4 > |bytes| {
        return Err;
      }
      var id := FromLe(bytes[offset..offset + 4]);
      if id == 0 {
        return Ok(types);
      }
      if records == MAX_APPINFO_RECORDS || offset + 8 > |bytes| {
        return Err;
      }
      records := records + 1;
      var size := FromLe(bytes[offset + 4..offset + 8]);
      if size < BYTES_AFTER_SIZE || offset + 8 + size > end {
        return Err;
      }
      var app := ExtractAppType(bytes[offset + ENTRY_HEADER_BYTES..offset + 8 + size], mode);
      if app.Err? || id in types {
        return Err;
      }
      types := types[id := app.value];
      offset := offset + 8 + size;
    }
    r := Ok(types);
  }

  // --- what a file contains -------------------------------------------------------

  datatype Record = Record(id: nat, header: seq<Byte>, doc: Doc, closed: bool)

  function Vdf(record: Record): seq<Byte>
  {
    Encode(record.doc) + (if record.closed then [8] else [])
  }

  ghost predicate RecordFits(mode: KeyMode, record: Record)
  {
    && 0 < record.id < U32_LIMIT
    && |record.header| == BYTES_AFTER_SIZE
    && Encodes(mode, record.doc, record.closed, Vdf(record))
    && BYTES_AFTER_SIZE + |Vdf(record)| < U32_LIMIT
  }

  function RecordBytes(record: Record): seq<Byte>
  {
    ToLe(4, record.id) + ToLe(4, BYTES_AFTER_SIZE + |Vdf(record)|) + record.header + Vdf(record)
  }

  /** The records lie one after the other from `offset`, up to the end of the
      application section or a zero identifier. */
  ghost predicate Holds(mode: KeyMode, bytes: seq<Byte>, offset: nat, end: nat, records: seq<Record>)
    decreases |records|
  {
    if records == [] then offset >= end || (offset + 4 <= |bytes| && FromLe(bytes[offset..offset + 4]) == 0)
    else
      var next := offset + |RecordBytes(records[0])|;
      && RecordFits(mode, records[0])
      && next <= end <= |bytes|
      && bytes[offset..next] == RecordBytes(records[0])
      && Holds(mode, bytes, next, end, records[1..])
  }

  /** The types the records declare, by identifier; an unusable document or a
      repeated identifier makes the whole file unusable. */
  ghost function Collect(mode: KeyMode, records: seq<Record>, types: AppTypes): Result<AppTypes>
    requires forall r :: r in records ==> Fits(mode, r.doc)
  {
    if records == [] then Ok(types)
    else match DeclaredType(mode, records[0].doc)
      case Err => Err
      case Ok(app) =>
        if records[0].id in types then Err else Collect(mode, records[1..], types[records[0].id := app])
  }

  lemma RecordRead(mode: KeyMode, bytes: seq<Byte>, offset: nat, record: Record)
    requires RecordFits(mode, record) && offset + |RecordBytes(record)| <= |bytes|
    requires bytes[offset..offset + |RecordBytes(record)|] == RecordBytes(record)
    ensures |RecordBytes(record)| == ENTRY_HEADER_BYTES + |Vdf(record)|
    ensures FromLe(bytes[offset..offset + 4]) == record.id
    ensures FromLe(bytes[offset + 4..offset + 8]) == BYTES_AFTER_SIZE + |Vdf(record)|
    ensures bytes[offset + 8..offset + 68] == record.header
    ensures bytes[offset + 68..offset + |RecordBytes(record)|] == Vdf(record)
  {
    hide Vdf, Encodes, FromLe, ToLe;
    Widths();
    LeRoundTrip(4, record.id);
    LeRoundTrip(4, BYTES_AFTER_SIZE + |Vdf(record)|);
    Slices(bytes, offset, ToLe(4, record.id), ToLe(4, BYTES_AFTER_SIZE + |Vdf(record)|), record.header, Vdf(record));
  }

  lemma Slices(bytes: seq<Byte>, o: nat, a: seq<Byte>, b: seq<Byte>, c: seq<Byte>, d: seq<Byte>)
    requires o + |a + b + c + d| <= |bytes| && bytes[o..o + |a + b + c + d|] == a + b + c + d
    ensures bytes[o..o + |a|] == a
    ensures bytes[o + |a|..o + |a| + |b|] == b
    ensures bytes[o + |a| + |b|..o + |a| + |b| + |c|] == c
    ensures bytes[o + |a| + |b| + |c|..o + |a + b + c + d|] == d
  {
    var all := a + b + c + d;
    assert forall i :: 0 <= i < |all| ==> bytes[o + i] == bytes[o..o + |all|][i] == all[i];
    assert forall i :: 0 <= i < |a| ==> bytes[o + i] == all[i] == a[i];
    assert forall i :: 0 <= i < |b| ==> bytes[o + |a| + i] == all[|a| + i] == b[i];
    assert forall i :: 0 <= i < |c| ==> bytes[o + |a| + |b| + i] == all[|a| + |b| + i] == c[i];
    assert forall i :: 0 <= i < |d| ==> bytes[o + |a| + |b| + |c| + i] == all[|a| + |b| + |c| + i] == d[i];
  }

  lemma RecordPrinted(bytes: seq<Byte>, offset: nat, next: nat, record: Record)
    requires offset + ENTRY_HEADER_BYTES <= next <= |bytes|
    requires record.id == FromLe(bytes[offset..offset + 4])
    requires FromLe(bytes[offset + 4..offset + 8]) == next - offset - 8
    requires record.header == bytes[offset + 8..offset + 68]
    requires Vdf(record) == bytes[offset + 68..next]
    ensures RecordBytes(record) == bytes[offset..next]
  {
    hide Vdf, FromLe, ToLe;
    LeInverse(bytes[offset..offset + 4]);
    LeInverse(bytes[offset + 4..offset + 8]);
    assert bytes[offset..next]
        == bytes[offset..offset + 4] + bytes[offset + 4..offset + 8] + bytes[offset + 8..offset + 68]
           + bytes[offset + 68..next];
  }

  lemma HoldsFit(mode: KeyMode, bytes: seq<Byte>, offset: nat, end: nat, records: seq<Record>)
    requires Holds(mode, bytes, offset, end, records)
    ensures forall r :: r in records ==> RecordFits(mode, r) && Fits(mode, r.doc)
    decreases |records|
  {
    hide RecordBytes, Vdf, FromLe;
    if records != [] {
      var next := offset + |RecordBytes(records[0])|;
      HoldsFit(mode, bytes, next, end, records[1..]);
      assert records == [records[0]] + records[1..];
    }
  }

  /** Parsing a file that holds the given records collects their declared types. */
  lemma {:induction false} RecordsHeld(mode: KeyMode, bytes: seq<Byte>, offset: nat, end: nat, count: nat,
                                       types: AppTypes, records: seq<Record>)
    requires end <= |bytes| && Holds(mode, bytes, offset, end, records)
    requires count + |records| <= MAX_APPINFO_RECORDS
    ensures forall r :: r in records ==> Fits(mode, r.doc)
    ensures Records(mode, bytes, offset, end, count, types) == Collect(mode, records, types)
    decreases |records|
  {
    hide Encodes, DeclaredType, ExtractedType, FromLe, RecordBytes, Vdf;
    HoldsFit(mode, bytes, offset, end, records);
    if records != [] {
      var record := records[0];
      RecordRead(mode, bytes, offset, record);
      var next := offset + |RecordBytes(record)|;
      TypeOfRecord(mode, record);
      var declared := DeclaredType(mode, record.doc);
      if declared.Ok? && record.id !in types {
        RecordsHeld(mode, bytes, next, end, count + 1, types[record.id := declared.value], records[1..]);
      }
    }
  }

  /** A record's type is the one its document declares. */
  lemma TypeOfRecord(mode: KeyMode, record: Record)
    requires RecordFits(mode, record)
    ensures Fits(mode, record.doc)
    ensures ExtractedType(mode, Vdf(record)) == DeclaredType(mode, record.doc)
  {
    hide DeclaredType, ExtractedType, Encode, Fits, Depth, Entries;
    var declared := DeclaredType(mode, record.doc);
    if declared.Ok? {
      ExtractedTypeIsDeclared(mode, Vdf(record), declared.value);
    }
    var extracted := ExtractedType(mode, Vdf(record));
    if extracted.Ok? {
      ExtractedTypeIsDeclared(mode, Vdf(record), extracted.value);
      var doc, closed :| Encodes(mode, doc, closed, Vdf(record)) && DeclaredType(mode, doc) == extracted;
      EncodingUnique(mode, doc, record.doc, closed, record.closed, Vdf(record));
    }
  }

  /** Whatever parses holds records, whose types are what was returned. */
  lemma {:induction false} RecordsParsed(mode: KeyMode, bytes: seq<Byte>, offset: nat, end: nat, count: nat,
                                         types: AppTypes)
      returns (records: seq<Record>)
    requires end <= |bytes| && count <= MAX_APPINFO_RECORDS
    requires Records(mode, bytes, offset, end, count, types).Ok?
    ensures Holds(mode, bytes, offset, end, records)
    ensures count + |records| <= MAX_APPINFO_RECORDS
    decreases end - offset
  {
    hide Encode, Fits, Depth, Entries, DeclaredType, ExtractedType, FromLe, RecordBytes;
    if offset >= end || FromLe(bytes[offset..offset + 4]) == 0 {
      return [];
    }
    var id := FromLe(bytes[offset..offset + 4]);
    var next := offset + 8 + FromLe(bytes[offset + 4..offset + 8]);
    var app := ExtractedType(mode, bytes[offset + ENTRY_HEADER_BYTES..next]).value;
    ExtractedTypeIsDeclared(mode, bytes[offset + ENTRY_HEADER_BYTES..next], app);
    var doc, closed :| Encodes(mode, doc, closed, bytes[offset + ENTRY_HEADER_BYTES..next])
                       && DeclaredType(mode, doc) == Ok(app);
    var record := Record(id, bytes[offset + 8..offset + ENTRY_HEADER_BYTES], doc, closed);
    VdfOf(mode, record, bytes[offset + ENTRY_HEADER_BYTES..next]);
    Widths();
    RecordPrinted(bytes, offset, next, record);
    var rest := RecordsParsed(mode, bytes, next, end, count + 1, types[id := app]);
    records := [record] + rest;
    assert records[1..] == rest;
    assert next == offset + |RecordBytes(record)|;
  }

  lemma VdfOf(mode: KeyMode, record: Record, vdf: seq<Byte>)
    requires Encodes(mode, record.doc, record.closed, vdf)
    ensures Vdf(record) == vdf
  {
  }

  /** A file is laid out in a way: its first bytes are the number of the version; version
      40 spells its keys out and is all records after 8 bytes; version 41 has its records
      from 16 bytes on to where it says, and there begins the printed table of its keys. */
  ghost predicate LaidOut(bytes: seq<Byte>, layout: Layout)
  {
    match layout
    case Layout(Inline, start, end) =>
      start == 8 <= |bytes| == end && bytes[..4] == ToLe(4, APPINFO_MAGIC_V40)
    case Layout(Indexed(strings), start, end) =>
      && start == 16 <= end < |bytes| && end < U64_LIMIT
      && bytes[..4] == ToLe(4, APPINFO_MAGIC_V41) && bytes[8..16] == ToLe(8, end)
      && TableFits(strings) && TableBytes(strings) <= bytes[end..]
  }

  lemma LittleEndian(bytes: seq<Byte>, value: nat)
    ensures FromLe(bytes) == value <==> bytes == ToLe(|bytes|, value) && value < Pow256(|bytes|)
  {
    LeInverse(bytes);
    if value < Pow256(|bytes|) {
      LeRoundTrip(|bytes|, value);
    }
  }

  /** The header says how a file is laid out, exactly. */
  lemma HeaderCharacterized(bytes: seq<Byte>, layout: Layout)
    ensures Header(bytes) == Ok(layout) <==> LaidOut(bytes, layout)
  {
    hide StringTable, TableFits, TableBytes, ToLe, FromLe, Pow256;
    Widths();
    if |bytes| >= 8 {
      LittleEndian(bytes[..4], APPINFO_MAGIC_V40);
      LittleEndian(bytes[..4], APPINFO_MAGIC_V41);
      if |bytes| >= 16 {
        assert FromLe(bytes[8..16]) < Pow256(|bytes[8..16]|);
        LittleEndian(bytes[8..16], FromLe(bytes[8..16]));
        if layout.mode.Indexed? && 16 <= layout.end < |bytes| && layout.end < U64_LIMIT {
          LittleEndian(bytes[8..16], layout.end);
          StringTableCharacterized(bytes[layout.end..], layout.mode.strings);
        }
      }
    }
  }

  /** `parse_appinfo` succeeds exactly on files that are laid out in some way and hold a
      sequence of records within the limits, and returns exactly what those declare. */
  lemma AppInfoCharacterized(bytes: seq<Byte>, types: AppTypes)
    ensures ParsedAppInfo(bytes) == Ok(types)
            <==> exists layout: Layout, records: seq<Record> ::
                   && LaidOut(bytes, layout)
                   && Holds(layout.mode, bytes, layout.start, layout.end, records)
                   && |records| <= MAX_APPINFO_RECORDS
                   && (forall r :: r in records ==> Fits(layout.mode, r.doc))
                   && Collect(layout.mode, records, map[]) == Ok(types)
  {
    hide Header, Holds, Records, Collect, Fits, LaidOut;
    forall layout
      ensures Header(bytes) == Ok(layout) <==> LaidOut(bytes, layout)
    {
      HeaderCharacterized(bytes, layout);
    }
    if Header(bytes).Ok? {
      var Layout(mode, start, end) := Header(bytes).value;
      if ParsedAppInfo(bytes) == Ok(types) {
        var records := RecordsParsed(mode, bytes, start, end, 0, map[]);
        RecordsHeld(mode, bytes, start, end, 0, map[], records);
      }
      forall records: seq<Record> | Holds(mode, bytes, start, end, records) && |records| <= MAX_APPINFO_RECORDS
        ensures forall r :: r in records ==> Fits(mode, r.doc)
        ensures ParsedAppInfo(bytes) == Collect(mode, records, map[])
      {
        RecordsHeld(mode, bytes, start, end, 0, map[], records);
      }
    }
  }

  /** A file holds only one sequence of records. */
  lemma {:induction false} RecordsUnique(mode: KeyMode, bytes: seq<Byte>, offset: nat, end: nat,
                                         a: seq<Record>, b: seq<Record>)
    requires Holds(mode, bytes, offset, end, a) && Holds(mode, bytes, offset, end, b)
    ensures a == b
    decreases |a|
  {
    hide Encodes, FromLe, RecordBytes, Vdf;
    if a != [] { RecordRead(mode, bytes, offset, a[0]); }
    if b != [] { RecordRead(mode, bytes, offset, b[0]); }
    if a != [] && b != [] {
      EncodingUnique(mode, a[0].doc, b[0].doc, a[0].closed, b[0].closed, Vdf(a[0]));
      assert a[0] == b[0];
      RecordsUnique(mode, bytes, offset + |RecordBytes(a[0])|, end, a[1..], b[1..]);
      assert a == [a[0]] + a[1..] && b == [b[0]] + b[1..];
    }
  }

  predicate Distinct(records: seq<Record>)
  {
    forall i, j :: 0 <= i < j < |records| ==> records[i].id != records[j].id
  }

  /** Collecting succeeds exactly when the identifiers are distinct and every
      document is usable. */
  lemma {:induction false} CollectSucceeds(mode: KeyMode, records: seq<Record>, types: AppTypes)
    requires forall r :: r in records ==> Fits(mode, r.doc)
    ensures Collect(mode, records, types).Ok?
            <==> Distinct(records)
                 && forall r :: r in records ==> DeclaredType(mode, r.doc).Ok? && r.id !in types
    decreases |records|
  {
    hide DeclaredType, Fits;
    if records != [] {
      var record, rest := records[0], records[1..];
      assert records == [record] + rest;
      var declared := DeclaredType(mode, record.doc);
      if declared.Ok? && record.id !in types {
        CollectSucceeds(mode, rest, types[record.id := declared.value]);
        DistinctCons(record, rest);
      }
    }
  }

  lemma DistinctCons(record: Record, rest: seq<Record>)
    ensures Distinct([record] + rest) <==> Distinct(rest) && forall r :: r in rest ==> r.id != record.id
  {
    var records := [record] + rest;
    if Distinct(records) {
      forall i, j | 0 <= i < j < |rest| ensures rest[i].id != rest[j].id {
        assert records[i + 1].id != records[j + 1].id;
      }
      forall r | r in rest ensures r.id != record.id {
        var i :| 0 <= i < |rest| && rest[i] == r;
        assert records[0].id != records[i + 1].id;
      }
    }
  }

  /** On success each identifier is mapped to the type its own record declares,
      and nothing else is added. */
  lemma {:induction false} CollectMaps(mode: KeyMode, records: seq<Record>, types: AppTypes)
    requires forall r :: r in records ==> Fits(mode, r.doc)
    requires Collect(mode, records, types).Ok?
    ensures var result := Collect(mode, records, types).value;
            && result.Keys == types.Keys + (set r | r in records :: r.id)
            && (forall id :: id in types ==> result[id] == types[id])
            && (forall r :: r in records ==> DeclaredType(mode, r.doc) == Ok(result[r.id]))
    decreases |records|
  {
    hide DeclaredType, Fits;
    if records != [] {
      var record, rest := records[0], records[1..];
      assert records == [record] + rest;
      var more := types[record.id := DeclaredType(mode, record.doc).value];
      CollectMaps(mode, rest, more);
      assert more.Keys == types.Keys + {record.id};
    }
  }

  // --- writing a file -------------------------------------------------------------

  function RecordsBytes(records: seq<Record>): seq<Byte>
  {
    if records == [] then [] else RecordBytes(records[0]) + RecordsBytes(records[1..])
  }

  /** A version 41 file: header, records, a zero identifier, the key table. */
  function FileV41(universe: seq<Byte>, strings: seq<Text>, records: seq<Record>): seq<Byte>
  {
    var body := RecordsBytes(records);
    HeaderV41(universe, 16 + |body| + 4) + (body + (ToLe(4, 0) + TableBytes(strings)))
  }

  function HeaderV41(universe: seq<Byte>, offset: nat): seq<Byte>
  {
    ToLe(4, APPINFO_MAGIC_V41) + universe + ToLe(8, offset)
  }

  /** A version 40 file: keys are spelled out and the records end with a zero identifier. */
  function FileV40(universe: seq<Byte>, records: seq<Record>): seq<Byte>
  {
    ToLe(4, APPINFO_MAGIC_V40) + universe + (RecordsBytes(records) + ToLe(4, 0))
  }

  ghost predicate Writable(mode: KeyMode, records: seq<Record>)
  {
    && |records| <= MAX_APPINFO_RECORDS
    && Distinct(records)
    && forall r :: r in records ==> RecordFits(mode, r) && DeclaredType(mode, r.doc).Ok?
  }

  /** Exactly the records' identifiers, each with the type its document declares. */
  ghost predicate Describes(mode: KeyMode, records: seq<Record>, types: AppTypes)
    requires forall r :: r in records ==> Fits(mode, r.doc)
  {
    && types.Keys == (set r | r in records :: r.id)
    && forall r :: r in records ==> DeclaredType(mode, r.doc) == Ok(types[r.id])
  }

  lemma {:induction false} HoldsWritten(mode: KeyMode, prefix: seq<Byte>, records: seq<Record>, suffix: seq<Byte>,
                                        end: nat)
    requires forall r :: r in records ==> RecordFits(mode, r)
    requires |prefix| + |RecordsBytes(records)| + 4 <= end <= |prefix + (RecordsBytes(records) + (ToLe(4, 0) + suffix))|
    ensures Holds(mode, prefix + (RecordsBytes(records) + (ToLe(4, 0) + suffix)), |prefix|, end, records)
    decreases |records|
  {
    hide RecordBytes, RecordFits, FromLe, ToLe;
    var tail := ToLe(4, 0) + suffix;
    var bytes := prefix + (RecordsBytes(records) + tail);
    if records == [] {
      Widths();
      LeRoundTrip(4, 0);
      assert bytes[|prefix|..|prefix| + 4] == ToLe(4, 0);
    } else {
      var first, rest := RecordBytes(records[0]), RecordsBytes(records[1..]);
      assert bytes == (prefix + first) + (rest + tail);
      assert bytes[|prefix|..|prefix| + |first|] == first;
      HoldsWritten(mode, prefix + first, records[1..], suffix, end);
    }
  }

  lemma CollectWritable(mode: KeyMode, records: seq<Record>)
    requires Writable(mode, records)
    ensures forall r :: r in records ==> Fits(mode, r.doc)
    ensures Collect(mode, records, map[]).Ok? && Describes(mode, records, Collect(mode, records, map[]).value)
  {
    hide DeclaredType, Fits, Collect;
    CollectSucceeds(mode, records, map[]);
    CollectMaps(mode, records, map[]);
  }

  /** Reading back a written version 41 file gives exactly the declared types. */
  lemma AppInfoV41RoundTrip(universe: seq<Byte>, strings: seq<Text>, records: seq<Record>)
    requires |universe| == 4 && TableFits(strings) && Writable(Indexed(strings), records)
    requires |FileV41(universe, strings, records)| <= MAX_APPINFO_BYTES
    ensures forall r :: r in records ==> Fits(Indexed(strings), r.doc)
    ensures var result := ParsedAppInfo(FileV41(universe, strings, records));
            result.Ok? && Describes(Indexed(strings), records, result.value)
  {
    hide ToLe, FromLe, Records, Collect, Describes, RecordsBytes, StringTable, TableBytes, RecordFits, DeclaredType;
    var bytes := FileV41(universe, strings, records);
    var body := RecordsBytes(records);
    var offset := 16 + |body| + 4;
    var head := HeaderV41(universe, offset);
    Widths();
    LeRoundTrip(4, APPINFO_MAGIC_V41);
    LeRoundTrip(8, offset);
    assert bytes[..4] == ToLe(4, APPINFO_MAGIC_V41) && bytes[8..16] == ToLe(8, offset);
    TableAt(bytes, head + body + ToLe(4, 0), strings);
    HoldsWritten(Indexed(strings), head, records, TableBytes(strings), offset);
    CollectWritable(Indexed(strings), records);
    RecordsHeld(Indexed(strings), bytes, 16, offset, 0, map[], records);
  }

  lemma TableAt(bytes: seq<Byte>, before: seq<Byte>, strings: seq<Text>)
    requires TableFits(strings) && bytes == before + TableBytes(strings)
    ensures |before| < |bytes| && StringTable(bytes[|before|..]) == Ok(strings)
  {
    StringTableRoundTrip(strings, []);
    assert bytes[|before|..] == TableBytes(strings) + [];
  }

  /** Reading back a written version 40 file gives exactly the declared types. */
  lemma AppInfoV40RoundTrip(universe: seq<Byte>, records: seq<Record>)
    requires |universe| == 4 && Writable(Inline, records)
    ensures forall r :: r in records ==> Fits(Inline, r.doc)
    ensures var result := ParsedAppInfo(FileV40(universe, records));
            result.Ok? && Describes(Inline, records, result.value)
  {
    hide ToLe, FromLe, Records, Collect, Describes, RecordsBytes, RecordFits, DeclaredType;
    var bytes := FileV40(universe, records);
    var head := ToLe(4, APPINFO_MAGIC_V40) + universe;
    Widths();
    LeRoundTrip(4, APPINFO_MAGIC_V40);
    assert bytes[..4] == ToLe(4, APPINFO_MAGIC_V40);
    assert bytes == head + (RecordsBytes(records) + (ToLe(4, 0) + []));
    HoldsWritten(Inline, head, records, [], |bytes|);
    CollectWritable(Inline, records);
    RecordsHeld(Inline, bytes, 8, |bytes|, 0, map[], records);
  }

  /** The document the repository's tests write for an application: its declared
      type is the classified text. */
  const TYPE_KEYS: seq<Text> := [Ascii("appinfo"), Ascii("common"), Ascii("type")]

  function TypeDocument(text: Text): Doc
  {
    Object(Index(0), Object(Index(1), Entry(Index(2), Str(text), End), End), End)
  }

  lemma TypeDocumentFlattens(text: Text, keys: seq<Text>)
    requires |keys| == 3 && NoZero(text) && |text| <= MAX_VALUE_BYTES
    ensures Fits(Indexed(keys), TypeDocument(text))
    ensures Flatten(Indexed(keys), TypeDocument(text), []) == [Event([keys[0], keys[1]], keys[2], String(text))]
  {
    var mode := Indexed(keys);
    var event := Event([keys[0], keys[1]], keys[2], String(text));
    var entry := Entry(Index(2), Str(text), End);
    var common := Object(Index(1), entry, End);
    assert KeyFits(mode, Index(0)) && KeyFits(mode, Index(1)) && KeyFits(mode, Index(2));
    assert Fits(mode, End) && Fits(mode, entry) && Fits(mode, common);
    var path := [keys[0]] + [keys[1]];
    assert path == [keys[0], keys[1]] && [] + [keys[0]] == [keys[0]];
    assert Flatten(mode, entry, path) == [event] + Flatten(mode, End, path) == [event];
    assert Flatten(mode, common, [keys[0]]) == [event] + Flatten(mode, End, [keys[0]]) == [event];
  }

  lemma TypeDocumentDeclares(text: Text)
    requires NoZero(text) && ValidUtf8(text) && |text| <= MAX_APP_TYPE_BYTES
    ensures Fits(Indexed(TYPE_KEYS), TypeDocument(text))
    ensures DeclaredType(Indexed(TYPE_KEYS), TypeDocument(text)) == Ok(ClassifyAppType(text))
  {
    hide ClassifyAppType, Lower, Ascii, Flatten, Fits, ValidUtf8, NoZero;
    TypeDocumentFlattens(text, TYPE_KEYS);
    var event := Event([TYPE_KEYS[0], TYPE_KEYS[1]], TYPE_KEYS[2], String(text));
    assert TypeEvents([event]) == [event] + TypeEvents([]);
  }
}
