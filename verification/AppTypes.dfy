/** Which type an application-info file declares, said in terms of the text itself: white
    space and letter by letter up to case (crates/overcrow-control/src/steam_binary.rs). */
module AppTypes {
  import opened Common
  import opened Bytes
  import opened BinaryVdf
  import opened SteamBinary
  import opened AppInfo

  /** One Unicode white-space character in UTF-8. */
  predicate Space(c: Text)
  {
    || (|c| == 1 && (9 <= c[0] <= 13 || c[0] == 32))
    || c == [0xC2, 0x85] || c == [0xC2, 0xA0]
    || c == [0xE1, 0x9A, 0x80]
    || (|c| == 3 && c[0] == 0xE2 && c[1] == 0x80 && (0x80 <= c[2] <= 0x8A || c[2] in {0xA8, 0xA9, 0xAF}))
    || c == [0xE2, 0x81, 0x9F] || c == [0xE3, 0x80, 0x80]
  }

  ghost predicate White(s: Text)
  {
    s == [] || exists k :: 0 < k <= |s| && Space(s[..k]) && White(s[k..])
  }

  /** `word` is `name`, in any mixture of upper and lower case. */
  predicate Spells(word: Text, name: string)
  {
    && |word| == |name|
    && forall i :: 0 <= i < |name| ==>
         word[i] == name[i] as int || ('a' <= name[i] <= 'z' && word[i] == name[i] as int - 32)
  }

  const GAMES := ["game", "demo"]

  const OTHERS := ["advertising", "application", "config", "dlc", "guide", "hardware", "music", "series",
                   "tool", "video"]

  ghost predicate Between(text: Text, before: Text, word: Text, after: Text)
  {
    text == before + word + after && White(before) && White(after)
  }

  /** `text` is one of the names, with any white space around it. */
  ghost predicate Names(text: Text, names: seq<string>)
  {
    exists before, word, after, name :: Between(text, before, word, after) && name in names && Spells(word, name)
  }

  /** The type that text stands for. */
  ghost predicate StandsFor(text: Text, app: AppType)
  {
    match app
    case Game => Names(text, GAMES)
    case NonGame => Names(text, OTHERS)
    case Unknown => !Names(text, GAMES) && !Names(text, OTHERS)
  }

  // --- white space ------------------------------------------------------------------

  lemma SpaceAhead(s: Text, k: nat)
    requires 0 < k <= |s|
    ensures Space(s[..k]) <==> SpaceLength(s) == k
  {
  }

  /** No white-space character ends with a shorter one. */
  lemma NoSpaceWithin(c: Text, j: nat)
    requires Space(c) && 0 < j < |c|
    ensures SpaceLength(c[|c| - j..]) != j
  {
    assert c[|c| - j..][0] == c[|c| - j];
  }

  lemma SpaceIsShort(c: Text)
    ensures Space(c) ==> 0 < |c| <= 3
  {
  }

  lemma SpaceEnds(s: Text, k: nat)
    requires 0 < k <= |s|
    ensures Space(s[|s| - k..]) <==> SpaceBehind(s) == k
  {
    hide Space, SpaceLength;
    var c := s[|s| - k..];
    SpaceIsShort(c);
    SpaceAhead(c, k);
    assert c[..k] == c;
    if Space(c) && k > 1 {
      NoSpaceWithin(c, 1);
      assert c[|c| - 1..] == s[|s| - 1..];
    }
    if Space(c) && k > 2 {
      NoSpaceWithin(c, 2);
      assert c[|c| - 2..] == s[|s| - 2..];
    }
  }

  lemma Nothing() returns (s: Text)
    ensures s == [] && White(s)
  {
    s := [];
  }

  lemma Whiten(c: Text, s: Text)
    requires Space(c) && White(s)
    ensures White(c + s)
  {
    assert (c + s)[..|c|] == c && (c + s)[|c|..] == s;
  }

  lemma Unwhiten(s: Text) returns (c: Text, rest: Text)
    requires White(s) && s != []
    ensures Space(c) && White(rest) && s == c + rest && |rest| < |s|
  {
    var k :| 0 < k <= |s| && Space(s[..k]) && White(s[k..]);
    c, rest := s[..k], s[k..];
  }

  lemma {:induction false} WhiteAppend(s: Text, c: Text)
    requires White(s) && Space(c)
    ensures White(s + c)
    decreases |s|
  {
    hide Space, White;
    if s == [] {
      Whiten(c, s);
      assert s + c == c + s;
    } else {
      var d, rest := Unwhiten(s);
      WhiteAppend(rest, c);
      Whiten(d, rest + c);
      assert s + c == d + (rest + c);
    }
  }

  lemma {:induction false} WhiteFromBehind(s: Text) returns (rest: Text, c: Text)
    requires White(s) && s != []
    ensures Space(c) && White(rest) && s == rest + c && |rest| < |s|
    decreases |s|
  {
    hide Space, White;
    var d, more := Unwhiten(s);
    if more == [] {
      rest, c := more, d;
      assert s == rest + c;
      assert |d| > 0;
    } else {
      rest, c := WhiteFromBehind(more);
      Whiten(d, rest);
      assert s == (d + rest) + c;
      rest := d + rest;
    }
  }

  lemma {:induction false} WhiteIsTrimmedAhead(before: Text, rest: Text)
    requires White(before)
    ensures TrimStart(before + rest) == TrimStart(rest)
    decreases |before|
  {
    hide Space, SpaceLength, White;
    if before == [] {
      assert before + rest == rest;
    } else {
      var c, more := Unwhiten(before);
      var s := before + rest;
      assert s[..|c|] == c && s[|c|..] == more + rest;
      SpaceAhead(s, |c|);
      WhiteIsTrimmedAhead(more, rest);
    }
  }

  lemma {:induction false} WhiteIsTrimmedBehind(rest: Text, after: Text)
    requires White(after)
    ensures TrimEnd(rest + after) == TrimEnd(rest)
    decreases |after|
  {
    hide Space, SpaceBehind, White;
    if after == [] {
      assert rest + after == rest;
    } else {
      var more, c := WhiteFromBehind(after);
      var s := rest + after;
      assert s[|s| - |c|..] == c && s[..|s| - |c|] == rest + more;
      SpaceEnds(s, |c|);
      WhiteIsTrimmedBehind(rest, more);
    }
  }

  lemma {:induction false} TrimmedCount(s: Text) returns (n: nat)
    ensures n <= |s| && White(s[..n]) && TrimStart(s) == s[n..]
    decreases |s|
  {
    hide Space, SpaceLength, White;
    var k := SpaceLength(s);
    if k == 0 {
      var none := Nothing();
      n := 0;
      assert s[..0] == none;
    } else {
      SpaceAhead(s, k);
      var rest := s[k..];
      var more := TrimmedCount(rest);
      Whiten(s[..k], rest[..more]);
      n := k + more;
      assert s[..n] == s[..k] + rest[..more];
      assert s[n..] == rest[more..];
    }
  }

  lemma TrimmedAheadIsWhite(s: Text) returns (before: Text)
    ensures White(before) && s == before + TrimStart(s)
  {
    hide White, TrimStart;
    var n := TrimmedCount(s);
    before := s[..n];
  }

  lemma {:induction false} TrimmedBehindIsWhite(s: Text) returns (after: Text)
    ensures White(after) && s == TrimEnd(s) + after
    decreases |s|
  {
    hide Space, SpaceBehind, White;
    var k := SpaceBehind(s);
    if k == 0 {
      after := Nothing();
    } else {
      SpaceEnds(s, k);
      var more := TrimmedBehindIsWhite(s[..|s| - k]);
      WhiteAppend(more, s[|s| - k..]);
      after := more + s[|s| - k..];
      assert s == (TrimEnd(s[..|s| - k]) + more) + s[|s| - k..];
    }
  }

  // --- names ------------------------------------------------------------------------

  predicate Plain(name: string) { name != [] && forall i :: 0 <= i < |name| ==> 'a' <= name[i] <= 'z' }

  lemma PlainNames()
    ensures forall name :: name in GAMES || name in OTHERS ==> Plain(name)
  {
  }

  lemma SpelledIsLowered(word: Text, name: string)
    requires Plain(name)
    ensures Spells(word, name) <==> Lower(word) == Ascii(name)
  {
    if Spells(word, name) {
      assert forall i :: 0 <= i < |word| ==> Lower(word)[i] == Ascii(name)[i];
    }
    if Lower(word) == Ascii(name) {
      assert |word| == |name|;
      forall i | 0 <= i < |name|
        ensures word[i] == name[i] as int || word[i] == name[i] as int - 32
      {
        assert Lower(word)[i] == Ascii(name)[i];
      }
    }
  }

  /** Nothing is trimmed off text that starts and ends with a letter. */
  lemma LettersStay(s: Text)
    requires s != []
    ensures 65 <= s[0] < 128 ==> TrimStart(s) == s
    ensures 65 <= s[|s| - 1] < 128 ==> TrimEnd(s) == s
  {
    if 65 <= s[0] < 128 {
      assert SpaceLength(s) == 0;
    }
    var k := SpaceBehind(s);
    if 65 <= s[|s| - 1] < 128 && k > 0 {
      SpaceEnds(s, k);
      assert false;
    }
  }

  lemma SpelledStaysWhole(before: Text, word: Text, after: Text, name: string)
    requires White(before) && White(after) && Plain(name) && Spells(word, name)
    ensures TrimEnd(TrimStart(before + word + after)) == word
  {
    hide TrimStart, TrimEnd, White;
    assert before + word + after == before + (word + after);
    WhiteIsTrimmedAhead(before, word + after);
    LettersStay(word + after);
    WhiteIsTrimmedBehind(word, after);
    LettersStay(word);
  }

  /** Being one of the names, up to white space and case, is what the trimmed and lowered
      text is compared for. */
  lemma NamedExactlyWhenListed(text: Text, names: seq<string>)
    requires forall name :: name in names ==> Plain(name)
    ensures Names(text, names) <==> exists name :: name in names && Lower(TrimEnd(TrimStart(text))) == Ascii(name)
  {
    hide Lower, Ascii, TrimStart, TrimEnd, White, Spells, Plain;
    var trimmed := TrimEnd(TrimStart(text));
    if Names(text, names) {
      var before, word, after, name :|
        Between(text, before, word, after) && name in names && Spells(word, name);
      SpelledStaysWhole(before, word, after, name);
      SpelledIsLowered(word, name);
    }
    if name :| name in names && Lower(trimmed) == Ascii(name) {
      SpelledIsLowered(trimmed, name);
      var before := TrimmedAheadIsWhite(text);
      var after := TrimmedBehindIsWhite(TrimStart(text));
      assert text == before + trimmed + after;
      assert Between(text, before, trimmed, after);
    }
  }

  // --- what is declared -------------------------------------------------------------

  lemma NamesApart(game: string, other: string)
    requires game in GAMES && other in OTHERS
    ensures Ascii(game) != Ascii(other)
  {
    assert |game| == 4 && (game[0] == 'g' || game[0] == 'd');
    assert |other| == 4 ==> other[0] == 't';
    if |other| == 4 {
      assert Ascii(game)[0] != Ascii(other)[0];
    }
  }

  ghost predicate Listed(name: Text, names: seq<string>) { exists n :: n in names && name == Ascii(n) }

  lemma GamesListed(name: Text)
    ensures Listed(name, GAMES) <==> name in {Ascii("game"), Ascii("demo")}
  {
    hide Ascii;
    assert GAMES[0] == "game" && GAMES[1] == "demo";
    assert forall n :: n in GAMES ==> n == "game" || n == "demo";
  }

  lemma OthersListed(name: Text)
    ensures Listed(name, OTHERS)
            <==> name in {Ascii("advertising"), Ascii("application"), Ascii("config"), Ascii("dlc"), Ascii("guide"),
                          Ascii("hardware"), Ascii("music"), Ascii("series"), Ascii("tool"), Ascii("video")}
  {
    hide Ascii;
    var o := OTHERS;
    assert && "advertising" == o[0] && "application" == o[1] && "config" == o[2] && "dlc" == o[3] && "guide" == o[4]
           && "hardware" == o[5] && "music" == o[6] && "series" == o[7] && "tool" == o[8] && "video" == o[9];
    assert forall n :: n in o ==> exists i :: 0 <= i < 10 && o[i] == n;
  }

  lemma NeverBoth(name: Text)
    ensures !(Listed(name, GAMES) && Listed(name, OTHERS))
  {
    if Listed(name, GAMES) && Listed(name, OTHERS) {
      var game :| game in GAMES && name == Ascii(game);
      var other :| other in OTHERS && name == Ascii(other);
      NamesApart(game, other);
    }
  }

  lemma ClassifiedAsNamed(text: Text)
    ensures StandsFor(text, ClassifyAppType(text))
    ensures !(Names(text, GAMES) && Names(text, OTHERS))
  {
    PlainNames();
    NamedExactlyWhenListed(text, GAMES);
    NamedExactlyWhenListed(text, OTHERS);
    hide Lower, Ascii, TrimStart, TrimEnd, Names, Plain;
    var name := Lower(TrimEnd(TrimStart(text)));
    assert Names(text, GAMES) <==> Listed(name, GAMES);
    assert Names(text, OTHERS) <==> Listed(name, OTHERS);
    hide Listed;
    GamesListed(name);
    OthersListed(name);
    NeverBoth(name);
  }

  /** The keys under which an application's type is found. */
  predicate TypeKeys(keys: seq<Text>)
    requires |keys| == 3
  {
    Spells(keys[0], "appinfo") && Spells(keys[1], "common") && Spells(keys[2], "type")
  }

  lemma SpelledIsSameKey(key: Text, name: string)
    requires Plain(name)
    ensures EqIgnoreCase(key, Ascii(name)) <==> Spells(key, name)
  {
    SpelledIsLowered(key, name);
    assert Lower(Ascii(name)) == Ascii(name);
  }

  /** A document with one entry of readable text declares the type the text stands for, and
      no other, if the entry is found under the right keys; otherwise none. */
  lemma DeclaredAsNamed(keys: seq<Text>, text: Text, app: AppType)
    requires |keys| == 3 && NoZero(text) && ValidUtf8(text) && |text| <= 64
    ensures Fits(Indexed(keys), TypeDocument(text))
    ensures DeclaredType(Indexed(keys), TypeDocument(text)) == Ok(app)
            <==> if TypeKeys(keys) then StandsFor(text, app) else app.Unknown?
  {
    hide Flatten, Fits, ClassifyAppType, Names, ValidUtf8, NoZero, IsTypeEvent, TypeKeys;
    TypeDocumentFlattens(text, keys);
    ClassifiedAsNamed(text);
    var event := Event([keys[0], keys[1]], keys[2], String(text));
    FoundUnderTypeKeys(keys, event);
    assert [event][1..] == [];
    assert TypeEvents([event]) == if TypeKeys(keys) then [event] else [];
  }

  lemma FoundUnderTypeKeys(keys: seq<Text>, event: Event)
    requires |keys| == 3 && event.path == [keys[0], keys[1]] && event.key == keys[2]
    ensures IsTypeEvent(event) <==> TypeKeys(keys)
  {
    SpelledIsSameKey(keys[0], "appinfo");
    SpelledIsSameKey(keys[1], "common");
    SpelledIsSameKey(keys[2], "type");
    hide EqIgnoreCase, Spells, Ascii;
  }

  /** So does a file that holds such a document: this is what reading it gives. */
  lemma FileDeclaresAsNamed(universe: seq<Byte>, keys: seq<Text>, id: nat, header: seq<Byte>, text: Text, closed: bool,
                            app: AppType)
    requires |universe| == 4 && 0 < id < U32_LIMIT && |header| == 60
    requires |keys| == 3 && TableFits(keys) && TypeKeys(keys)
    requires NoZero(text) && ValidUtf8(text) && |text| <= 64 && StandsFor(text, app)
    ensures ParsedAppInfo(FileV41(universe, keys, [Record(id, header, TypeDocument(text), closed)]))
            == Ok(map[id := app])
  {
    hide DeclaredType, Fits, Names, ValidUtf8, NoZero, FileV41, ParsedAppInfo, RecordFits, TypeDocument, TypeKeys,
         TableFits;
    var record := Record(id, header, TypeDocument(text), closed);
    var mode, records := Indexed(keys), [record];
    DeclaredAsNamed(keys, text, app);
    TypeRecordFits(keys, record, text);
    TypeFileFits(universe, keys, record);
    assert record in records && forall r :: r in records ==> r == record;
    AppInfoV41RoundTrip(universe, keys, records);
    var types := ParsedAppInfo(FileV41(universe, keys, records)).value;
    assert types.Keys == {id} && types[id] == app;
    assert types == map[id := app];
  }

  lemma TypeRecordFits(keys: seq<Text>, record: Record, text: Text)
    requires |keys| == 3 && record.doc == TypeDocument(text) && 0 < record.id < U32_LIMIT && |record.header| == 60
    requires NoZero(text) && |text| <= 64
    ensures RecordFits(Indexed(keys), record) && |Vdf(record)| <= 90
  {
    hide Fits, ToLe, NoZero;
    TypeDocumentFlattens(text, keys);
    var entry := Entry(Index(2), Str(text), End);
    var common := Object(Index(1), entry, End);
    assert Encode(End) == [] && Depth(End) == 0 && Entries(End) == 0;
    assert Encode(entry) == TokenBytes(Item(Index(2), Str(text))) + Encode(End);
    assert Encode(common) == TokenBytes(Open(Index(1))) + (Encode(entry) + (TokenBytes(Close) + Encode(End)));
    assert Depth(entry) == 0 && Depth(common) == 1 && Entries(entry) == 1 && Entries(common) == 3;
  }

  lemma TypeFileFits(universe: seq<Byte>, keys: seq<Text>, record: Record)
    requires |universe| == 4 && |Vdf(record)| <= 90 && |record.header| == 60 && |keys| == 3 && TypeKeys(keys)
    ensures |FileV41(universe, keys, [record])| <= 1000
  {
    hide ToLe, Vdf;
    assert |keys[0]| == 7 && |keys[1]| == 6 && |keys[2]| == 4;
    hide Spells;
    assert keys[1..] == [keys[1], keys[2]] && keys[1..][1..] == [keys[2]];
    assert |StringsBytes([keys[2]])| == 5;
    assert |StringsBytes(keys[1..])| == 12;
    assert |StringsBytes(keys)| == 20;
    assert RecordsBytes([record]) == RecordBytes(record) + RecordsBytes([record][1..]);
  }
}
