/** The decoder itself: the byte cursor and the walk as a loop over it
    (crates/overcrow-control/src/steam_binary.rs). */
module SteamBinary {
  import opened Common
  import opened Bytes
  import opened BinaryVdf

  const MAX_APPINFO_BYTES: nat := 64 * 1024 * 1024
  const MAX_APPINFO_RECORDS: nat := 16_384
  const MAX_STRING_TABLE_ENTRIES: nat := 32_768
  const APPINFO_MAGIC_V40: nat := 0x0756_4428
  const APPINFO_MAGIC_V41: nat := 0x0756_4429
  const ENTRY_HEADER_BYTES: nat := 68
  const BYTES_AFTER_SIZE: nat := 60
  const MAX_APP_TYPE_BYTES: nat := 64

  lemma WideStep(s: seq<Byte>, done: nat)
    requires done <= |s|
    ensures WideZeroAt(s[done..])
            == if |s| < done + 2 || (s[done] == 0 && s[done + 1] == 0) then 0 else 2 + WideZeroAt(s[done + 2..])
  {
    if done + 2 <= |s| {
      assert s[done..][2..] == s[done + 2..];
    }
  }

  // --- the cursor -----------------------------------------------------------------

  /** A reader over a byte slice. A failed read leaves no promise about `offset`:
      every caller gives up at the first error. */
  class Cursor {
    const bytes: seq<Byte>
    var offset: nat

    ghost predicate Valid()
      reads this
    {
      offset <= |bytes|
    }

    ghost function Rest(): seq<Byte>
      reads this
      requires Valid()
    {
      bytes[offset..]
    }

    constructor (bytes: seq<Byte>)
      ensures Valid() && this.bytes == bytes && Rest() == bytes
    {
      this.bytes := bytes;
      offset := 0;
    }

    method ReadU8() returns (r: Result<Byte>)
      requires Valid()
      modifies this
      ensures Valid()
      ensures r.Ok? <==> old(Rest()) != []
      ensures r.Ok? ==> r.value == old(Rest())[0] && Rest() == old(Rest())[1..]
    {
      if offset >= |bytes| {
        return Err;
      }
      r := Ok(bytes[offset]);
      offset := offset + 1;
    }

    method Exact(length: nat) returns (r: Result<Text>)
      requires Valid()
      modifies this
      ensures Valid()
      ensures r.Ok? <==> length <= |old(Rest())|
      ensures r.Ok? ==> r.value == old(Rest())[..length] && Rest() == old(Rest())[length..]
    {
      if offset + length > |bytes| {
        return Err;
      }
      r := Ok(bytes[offset..offset + length]);
      offset := offset + length;
    }

    method ReadU32() returns (r: Result<nat>)
      requires Valid()
      modifies this
      ensures Valid()
      ensures r.Ok? <==> 4 <= |old(Rest())|
      ensures r.Ok? ==> r.value == FromLe(old(Rest())[..4]) && Rest() == old(Rest())[4..]
    {
      var raw := Exact(4);
      match raw {
        case Ok(value) => r := Ok(FromLe(value));
        case Err => r := Err;
      }
    }

    method CString(limit: nat) returns (r: Result<Text>)
      requires Valid()
      modifies this
      ensures Valid()
      ensures match ReadCString(old(Rest()), limit)
              case Some(read) => r == Ok(read.value) && Rest() == old(Rest())[read.length..]
              case None => r == Err
    {
      ghost var s := Rest();
      var length := 0;
      while offset + length < |bytes| && bytes[offset + length] != 0
        invariant offset + length <= |bytes|
        invariant offset == old(offset)
        invariant ZeroAt(s) == length + ZeroAt(s[length..])
      {
        assert s[length..][1..] == s[length + 1..];
        length := length + 1;
      }
      if offset + length == |bytes| || length > limit {
        return Err;
      }
      assert s[..length] == bytes[offset..offset + length];
      r := Ok(bytes[offset..offset + length]);
      offset := offset + (length + 1);
    }

    method SkipWideString() returns (r: Result<()>)
      requires Valid()
      modifies this
      ensures Valid()
      ensures match ReadWide(old(Rest()))
              case Some(read) => r == Ok(()) && Rest() == old(Rest())[read.length..]
              case None => r == Err
    {
      hide WideZeroAt, NoWideZero;
      var start := offset;
      while offset + 1 < |bytes|
        invariant start <= offset <= |bytes| && offset - start <= MAX_VALUE_BYTES
        invariant WideZeroAt(bytes[start..]) == (offset - start) + WideZeroAt(bytes[offset..])
        decreases |bytes| - offset
      {
        WideStep(bytes, offset);
        if bytes[offset] == 0 && bytes[offset + 1] == 0 {
          offset := offset + 2;
          return Ok(());
        }
        offset := offset + 2;
        if offset - start > MAX_VALUE_BYTES {
          return Err;
        }
      }
      WideStep(bytes, offset);
      r := Err;
    }

    method Key(mode: KeyMode) returns (r: Result<Text>)
      requires Valid()
      modifies this
      ensures Valid()
      ensures match ReadKey(mode, old(Rest()))
              case Some(read) => r == Ok(KeyText(mode, read.value)) && Rest() == old(Rest())[read.length..]
              case None => r == Err
    {
      match mode {
        case Inline =>
          r := CString(MAX_KEY_BYTES);
          if r.Ok? && !ValidUtf8(r.value) {
            r := Err;
          }
        case Indexed(strings) =>
          var index := ReadU32();
          if index.Err? || index.value >= |strings| {
            return Err;
          }
          r := Ok(strings[index.value]);
      }
    }

    /** The value that follows a key, by its type byte. */
    method ScalarValue(tag: Byte) returns (r: Result<Scalar>)
      requires Valid() && 1 <= tag <= 7
      modifies this
      ensures Valid()
      ensures match ReadValue(tag, old(Rest()))
              case Some(read) => r == Ok(ScalarOf(read.value)) && Rest() == old(Rest())[read.length..]
              case None => r == Err
    {
      if tag == 1 {
        var text := CString(MAX_VALUE_BYTES);
        if text.Err? { return Err; }
        r := Ok(String(text.value));
      } else if tag == 2 {
        var value := ReadU32();
        if value.Err? { return Err; }
        r := Ok(Int32(value.value));
      } else if tag == 5 {
        var skipped := SkipWideString();
        r := if skipped.Err? then Err else Ok(Other);
      } else {
        var raw := Exact(if tag == 7 then 8 else 4);
        r := if raw.Err? then Err else Ok(Other);
      }
    }

    /** What follows a type byte other than the end byte: a key and, unless an object opens,
        a value. */
    method Payload(mode: KeyMode, tag: Byte) returns (r: Result<Step>)
      requires Valid() && tag <= 7
      modifies this
      ensures Valid()
      ensures match ReadPayload(mode, tag, old(Rest()))
              case Some(read) => r == Ok(read.value) && Rest() == old(Rest())[read.length..]
              case None => r == Err
    {
      hide ReadKey, ReadValue, KeyText, KeyFits, ValueFits, ValueTag, ScalarOf;
      ghost var s := Rest();
      var key := Key(mode);
      if key.Err? {
        return Err;
      }
      if tag == 0 {
        return Ok(Enter(key.value));
      }
      ghost var keyLength := ReadKey(mode, s).value.length;
      var scalar := ScalarValue(tag);
      if scalar.Err? {
        return Err;
      }
      ghost var valueLength := ReadValue(tag, s[keyLength..]).value.length;
      assert s[keyLength..][valueLength..] == s[keyLength + valueLength..];
      r := Ok(Visit(key.value, scalar.value));
    }

    /** One entry, by its type byte: an object opens or ends, or a scalar is read. */
    method Entry(mode: KeyMode) returns (r: Result<Step>)
      requires Valid() && Rest() != []
      modifies this
      ensures Valid()
      ensures match ReadToken(mode, old(Rest()))
              case Some(read) => r == Ok(StepOf(mode, read.value)) && Rest() == old(Rest())[read.length..]
              case None => r == Err
    {
      hide ReadPayload, ReadToken, StepOf;
      TokenSplits(mode, Rest());
      var tag := ReadU8();
      if tag.value == 8 {
        return Ok(Leave);
      }
      if tag.value > 7 {
        return Err;
      }
      r := Payload(mode, tag.value);
    }
  }

  function ReadPayload(mode: KeyMode, tag: Byte, s: seq<Byte>): (r: Option<Read<Step>>)
    requires tag <= 7
    ensures r.Some? ==> r.value.length <= |s|
  {
    match ReadKey(mode, s)
    case None => None
    case Some(key) =>
      if tag == 0 then Some(Read(Enter(KeyText(mode, key.value)), key.length))
      else
        match ReadValue(tag, s[key.length..])
        case None => None
        case Some(value) => Some(Read(Visit(KeyText(mode, key.value), ScalarOf(value.value)),
                                      key.length + value.length))
  }

  /** A token is a type byte and what follows it. */
  lemma TokenSplits(mode: KeyMode, s: seq<Byte>)
    requires s != []
    ensures var token := ReadToken(mode, s);
            if s[0] == 8 then token.Some? && token.value.length == 1 && StepOf(mode, token.value.value) == Leave
            else if s[0] > 7 then token.None?
            else
              match ReadPayload(mode, s[0], s[1..])
              case None => token.None?
              case Some(read) =>
                && token.Some? && StepOf(mode, token.value.value) == read.value
                && s[token.value.length..] == s[1..][read.length..]
  {
    hide ReadKey, ReadValue, KeyText, KeyFits, ValueFits, ValueTag, ScalarOf;
    if s[0] <= 7 {
      var key := ReadKey(mode, s[1..]);
      if key.Some? {
        assert s[1..][key.value.length..] == s[1 + key.value.length..];
      }
    }
  }

  datatype Step = Enter(key: Text) | Leave | Visit(key: Text, scalar: Scalar)

  function StepOf(mode: KeyMode, token: Token): Step
    requires TokenFits(mode, token)
  {
    match token
    case Open(key) => Enter(KeyText(mode, key))
    case Close => Leave
    case Item(key, value) => Visit(KeyText(mode, key), ScalarOf(value))
  }

  /** Where one entry leads: on to a new path and visitor state, or to the end. */
  datatype Progress<S> = Continue(path: seq<Text>, state: S) | Finished(result: Result<S>)

  function Advance<S>(visit: Visitor<S>, step: Step, path: seq<Text>, atEnd: bool, state: S): Progress<S>
  {
    match step
    case Enter(key) => if |path| == MAX_DEPTH then Finished(Err) else Continue(path + [key], state)
    case Leave =>
      if path != [] then Continue(path[..|path| - 1], state)
      else Finished(if atEnd then Ok(state) else Err)
    case Visit(key, scalar) =>
      match visit(state, Event(path, key, scalar))
      case Ok(next) => Continue(path, next)
      case Err => Finished(Err)
  }

  lemma WalkUnfold<S>(mode: KeyMode, visit: Visitor<S>, s: seq<Byte>, path: seq<Text>, entries: nat, state: S)
    requires s != []
    ensures WalkFrom(mode, visit, s, path, entries, state)
            == if entries == MAX_ENTRIES then Err
               else match ReadToken(mode, s)
               case None => Err
               case Some(read) =>
                 var rest := s[read.length..];
                 match Advance(visit, StepOf(mode, read.value), path, rest == [], state)
                 case Continue(nextPath, next) => WalkFrom(mode, visit, rest, nextPath, entries + 1, next)
                 case Finished(result) => result
  {
    hide ReadToken, KeyText, KeyFits, ValueFits;
  }

  /** What the loop body does with one entry. */
  method Follow<S>(visit: Visitor<S>, step: Step, path: seq<Text>, atEnd: bool, state: S) returns (r: Progress<S>)
    ensures r == Advance(visit, step, path, atEnd, state)
  {
    match step {
      case Enter(key) =>
        if |path| == MAX_DEPTH {
          return Finished(Err);
        }
        r := Continue(path + [key], state);
      case Leave =>
        if path == [] {
          return Finished(if atEnd then Ok(state) else Err);
        }
        r := Continue(path[..|path| - 1], state);
      case Visit(key, scalar) =>
        var visited := visit(state, Event(path, key, scalar));
        if visited.Err? {
          return Finished(Err);
        }
        r := Continue(path, visited.value);
    }
  }

  /** The loop body: reads one entry and follows it. */
  method Turn<S>(cursor: Cursor, mode: KeyMode, visit: Visitor<S>, path: seq<Text>, entries: nat, state: S)
    returns (r: Progress<S>)
    requires cursor.Valid() && cursor.offset != |cursor.bytes|
    modifies cursor
    ensures cursor.Valid()
    ensures r.Continue? ==> old(cursor.offset) < cursor.offset
    ensures WalkFrom(mode, visit, old(cursor.Rest()), path, entries, state)
            == match r
               case Continue(nextPath, next) => WalkFrom(mode, visit, cursor.Rest(), nextPath, entries + 1, next)
               case Finished(result) => result
  {
    hide ReadToken, StepOf, TokenFits, WalkFrom, Advance;
    WalkUnfold(mode, visit, cursor.Rest(), path, entries, state);
    if entries == MAX_ENTRIES {
      return Finished(Err);
    }
    var entry := cursor.Entry(mode);
    if entry.Err? {
      return Finished(Err);
    }
    r := Follow(visit, entry.value, path, cursor.offset == |cursor.bytes|, state);
  }

  /** `walk_binary_vdf`: the loop computes exactly the specified walk. */
  method WalkBinaryVdf<S>(bytes: seq<Byte>, mode: KeyMode, visit: Visitor<S>, init: S) returns (r: Result<S>)
    ensures r == Walk(mode, visit, bytes, init)
  {
    hide WalkFrom;
    var cursor := new Cursor(bytes);
    var path: seq<Text> := [];
    var entries := 0;
    var state := init;
    while cursor.offset != |bytes|
      invariant cursor.Valid() && cursor.bytes == bytes && fresh(cursor)
      invariant WalkFrom(mode, visit, cursor.Rest(), path, entries, state) == Walk(mode, visit, bytes, init)
      decreases |bytes| - cursor.offset
    {
      var next := Turn(cursor, mode, visit, path, entries, state);
      if next.Finished? {
        return next.result;
      }
      entries := entries + 1;
      path, state := next.path, next.state;
    }
    assert cursor.Rest() == [];
    WalkEmpty(mode, visit, path, entries, state);
    r := if path == [] then Ok(state) else Err;
  }
}
