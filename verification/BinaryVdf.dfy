/** Steam's binary VDF format: documents, their encoding, and the bounded walk
    over the encoding (crates/overcrow-control/src/steam_binary.rs). */
module BinaryVdf {
  import opened Common
  import opened Bytes

  const MAX_DEPTH: nat := 64
  const MAX_ENTRIES: nat := 100_000
  const MAX_KEY_BYTES: nat := 256
  const MAX_VALUE_BYTES: nat := 1024 * 1024


  /** Keys are spelled out, or are indexes into a string table. */
  datatype KeyMode = Inline | Indexed(strings: seq<Text>)

  datatype Key = Name(text: Text) | Index(index: nat)

  datatype Value =
    | Str(raw: Text)
    | Int(value: nat)
    | Word(tag: Byte, raw: Text)
    | Wide(raw: Text)
    | Quad(raw: Text)

  /** What a visitor is shown of a value. */
  datatype Scalar = String(raw: Text) | Int32(value: nat) | Other

  /** An ordered forest of objects and scalar entries. */
  datatype Doc =
    | End
    | Object(key: Key, children: Doc, next: Doc)
    | Entry(key: Key, value: Value, next: Doc)

  datatype Token = Open(key: Key) | Close | Item(key: Key, value: Value)

  datatype Event = Event(path: seq<Text>, key: Text, scalar: Scalar)

  type Visitor<!S> = (S, Event) -> Result<S>

  // --- well-formedness and encoding ---------------------------------------------

  predicate NoZero(s: seq<Byte>) { forall i :: 0 <= i < |s| ==> s[i] != 0 }

  predicate NoWideZero(s: seq<Byte>)
  {
    |s| % 2 == 0 &&
    (|s| > 0 ==> !(s[0] == 0 && s[1] == 0) && NoWideZero(s[2..]))
  }

  predicate KeyFits(mode: KeyMode, key: Key)
  {
    match mode
    case Inline => key.Name? && NoZero(key.text) && |key.text| <= MAX_KEY_BYTES && ValidUtf8(key.text)
    case Indexed(strings) => key.Index? && key.index < |strings| && key.index < U32_LIMIT
  }

  function KeyText(mode: KeyMode, key: Key): Text
    requires KeyFits(mode, key)
  {
    match mode
    case Inline => key.text
    case Indexed(strings) => strings[key.index]
  }

  function KeyBytes(key: Key): seq<Byte>
  {
    match key
    case Name(text) => text + [0]
    case Index(index) => ToLe(4, index)
  }

  predicate ValueFits(value: Value)
  {
    match value
    case Str(raw) => NoZero(raw) && |raw| <= MAX_VALUE_BYTES
    case Int(v) => v < U32_LIMIT
    case Word(tag, raw) => tag in {3, 4, 6} && |raw| == 4
    case Wide(raw) => NoWideZero(raw) && |raw| <= MAX_VALUE_BYTES
    case Quad(raw) => |raw| == 8
  }

  function ValueTag(value: Value): Byte
  {
    match value
    case Str(_) => 1
    case Int(_) => 2
    case Word(tag, _) => tag
    case Wide(_) => 5
    case Quad(_) => 7
  }

  function ValueBytes(value: Value): seq<Byte>
  {
    match value
    case Str(raw) => raw + [0]
    case Int(v) => ToLe(4, v)
    case Word(_, raw) => raw
    case Wide(raw) => raw + [0, 0]
    case Quad(raw) => raw
  }

  function ScalarOf(value: Value): Scalar
  {
    match value
    case Str(raw) => String(raw)
    case Int(v) => Int32(v)
    case _ => Other
  }

  predicate TokenFits(mode: KeyMode, token: Token)
  {
    match token
    case Open(key) => KeyFits(mode, key)
    case Close => true
    case Item(key, value) => KeyFits(mode, key) && ValueFits(value)
  }

  function TokenBytes(token: Token): (bytes: seq<Byte>)
    ensures |bytes| > 0
  {
    match token
    case Open(key) => [0] + KeyBytes(key)
    case Close => [8]
    case Item(key, value) => [ValueTag(value)] + (KeyBytes(key) + ValueBytes(value))
  }

  predicate Fits(mode: KeyMode, doc: Doc)
  {
    match doc
    case End => true
    case Object(key, children, next) => KeyFits(mode, key) && Fits(mode, children) && Fits(mode, next)
    case Entry(key, value, next) => KeyFits(mode, key) && ValueFits(value) && Fits(mode, next)
  }

  function Depth(doc: Doc): nat
  {
    match doc
    case End => 0
    case Object(_, children, next) => Max(1 + Depth(children), Depth(next))
    case Entry(_, _, next) => Depth(next)
  }

  /** Type bytes in the encoding: an object has one at each end. */
  function Entries(doc: Doc): nat
  {
    match doc
    case End => 0
    case Object(_, children, next) => Entries(children) + 2 + Entries(next)
    case Entry(_, _, next) => 1 + Entries(next)
  }

  /** The printer: the encoding the repository's own tests build by hand. */
  function Encode(doc: Doc): seq<Byte>
  {
    match doc
    case End => []
    case Object(key, children, next) =>
      TokenBytes(Open(key)) + (Encode(children) + (TokenBytes(Close) + Encode(next)))
    case Entry(key, value, next) => TokenBytes(Item(key, value)) + Encode(next)
  }

  /** The scalars of a document in order, each with the object keys above it. */
  function Flatten(mode: KeyMode, doc: Doc, path: seq<Text>): seq<Event>
    requires Fits(mode, doc)
  {
    match doc
    case End => []
    case Object(key, children, next) =>
      Flatten(mode, children, path + [KeyText(mode, key)]) + Flatten(mode, next, path)
    case Entry(key, value, next) =>
      [Event(path, KeyText(mode, key), ScalarOf(value))] + Flatten(mode, next, path)
  }

  function Fold<S>(visit: Visitor<S>, events: seq<Event>, state: S): Result<S>
  {
    if events == [] then Ok(state)
    else match visit(state, events[0])
      case Ok(next) => Fold(visit, events[1..], next)
      case Err => Err
  }

  lemma {:induction false} FoldAppend<S>(visit: Visitor<S>, a: seq<Event>, b: seq<Event>, state: S)
    ensures Fold(visit, a + b, state)
            == (match Fold(visit, a, state) case Ok(mid) => Fold(visit, b, mid) case Err => Err)
  {
    if a == [] {
      assert a + b == b;
    } else {
      assert (a + b)[0] == a[0] && (a + b)[1..] == a[1..] + b;
      match visit(state, a[0]) {
        case Ok(next) => FoldAppend(visit, a[1..], b, next);
        case Err =>
      }
    }
  }

  /** `bytes` encodes `doc`, within every limit, with or without a final end byte. */
  ghost predicate Encodes(mode: KeyMode, doc: Doc, closed: bool, bytes: seq<Byte>)
  {
    && Fits(mode, doc)
    && Depth(doc) <= MAX_DEPTH
    && Entries(doc) + (if closed then 1 else 0) <= MAX_ENTRIES
    && bytes == Encode(doc) + (if closed then [8] else [])
  }

  // --- reading --------------------------------------------------------------------

  /** Index of the first zero byte, or the length when there is none. */
  function ZeroAt(s: seq<Byte>): (n: nat)
    ensures n <= |s| && NoZero(s[..n])
    ensures n < |s| ==> s[n] == 0
  {
    if |s| == 0 || s[0] == 0 then 0
    else
      var n := 1 + ZeroAt(s[1..]);
      assert forall i :: 1 <= i < n ==> s[i] == s[1..][i - 1];
      n
  }

  /** Bytes before the first aligned pair of zeros; short of it, all whole pairs. */
  function WideZeroAt(s: seq<Byte>): (n: nat)
    ensures n <= |s| && NoWideZero(s[..n])
    ensures n + 1 < |s| ==> s[n] == 0 && s[n + 1] == 0
  {
    if |s| < 2 || (s[0] == 0 && s[1] == 0) then 0
    else
      var n := WideZeroAt(s[2..]);
      assert s[..2 + n][2..] == s[2..][..n];
      2 + n
  }

  datatype Read<T> = Read(value: T, length: nat)

  function ReadExact(s: seq<Byte>, n: nat): (r: Option<Read<Text>>)
  {
    if n <= |s| then Some(Read(s[..n], n)) else None
  }

  function ReadCString(s: seq<Byte>, limit: nat): (r: Option<Read<Text>>)
  {
    var n := ZeroAt(s);
    if n == |s| || n > limit then None else Some(Read(s[..n], n + 1))
  }

  function ReadWide(s: seq<Byte>): (r: Option<Read<Text>>)
  {
    var n := WideZeroAt(s);
    if |s| < n + 2 || n > MAX_VALUE_BYTES then None else Some(Read(s[..n], n + 2))
  }

  function ReadKey(mode: KeyMode, s: seq<Byte>): (r: Option<Read<Key>>)
    ensures r.Some? ==> 0 < r.value.length <= |s| && KeyFits(mode, r.value.value)
  {
    match mode
    case Inline =>
      (match ReadCString(s, MAX_KEY_BYTES)
       case None => None
       case Some(text) => if ValidUtf8(text.value) then Some(Read(Name(text.value), text.length)) else None)
    case Indexed(strings) =>
      if |s| < 4 then None
      else
        var index := FromLe(s[..4]);
        Widths();
        if index < |strings| then Some(Read(Index(index), 4)) else None
  }

  function ReadValue(tag: Byte, s: seq<Byte>): (r: Option<Read<Value>>)
    ensures r.Some? ==> r.value.length <= |s| && ValueFits(r.value.value) && ValueTag(r.value.value) == tag
  {
    if tag == 1 then
      match ReadCString(s, MAX_VALUE_BYTES) case None => None case Some(t) => Some(Read(Str(t.value), t.length))
    else if tag == 2 then
      Widths();
      match ReadExact(s, 4) case None => None case Some(t) => Some(Read(Int(FromLe(t.value)), 4))
    else if tag in {3, 4, 6} then
      match ReadExact(s, 4) case None => None case Some(t) => Some(Read(Word(tag, t.value), 4))
    else if tag == 5 then
      match ReadWide(s) case None => None case Some(t) => Some(Read(Wide(t.value), t.length))
    else if tag == 7 then
      match ReadExact(s, 8) case None => None case Some(t) => Some(Read(Quad(t.value), 8))
    else None
  }

  function ReadToken(mode: KeyMode, s: seq<Byte>): (r: Option<Read<Token>>)
    requires |s| > 0
    ensures r.Some? ==> 0 < r.value.length <= |s| && TokenFits(mode, r.value.value)
  {
    if s[0] == 8 then Some(Read(Close, 1))
    else if s[0] > 7 then None
    else match ReadKey(mode, s[1..])
      case None => None
      case Some(key) =>
        if s[0] == 0 then Some(Read(Open(key.value), 1 + key.length))
        else match ReadValue(s[0], s[1 + key.length..])
          case None => None
          case Some(value) =>
            Some(Read(Item(key.value, value.value), 1 + key.length + value.length))
  }

  // --- tokens form a prefix code --------------------------------------------------

  lemma {:induction false} ZeroAtEncoded(raw: Text, rest: seq<Byte>)
    requires NoZero(raw)
    ensures ZeroAt(raw + [0] + rest) == |raw|
  {
    if |raw| > 0 {
      assert (raw + [0] + rest)[1..] == raw[1..] + [0] + rest;
      ZeroAtEncoded(raw[1..], rest);
    }
  }

  lemma CStringPrefix(raw: Text, rest: seq<Byte>, limit: nat)
    requires NoZero(raw) && |raw| <= limit
    ensures ReadCString(raw + [0] + rest, limit) == Some(Read(raw, |raw| + 1))
    ensures (raw + [0] + rest)[|raw| + 1..] == rest
  {
    hide ZeroAt, NoZero;
    ZeroAtEncoded(raw, rest);
    assert (raw + [0] + rest)[..|raw|] == raw;
  }

  lemma {:induction false} WideZeroAtEncoded(raw: Text, rest: seq<Byte>)
    requires NoWideZero(raw)
    ensures WideZeroAt(raw + [0, 0] + rest) == |raw|
  {
    var s := raw + [0, 0] + rest;
    if |raw| > 0 {
      assert s[2..] == raw[2..] + [0, 0] + rest;
      WideZeroAtEncoded(raw[2..], rest);
    }
  }

  lemma KeyPrefix(mode: KeyMode, key: Key, rest: seq<Byte>)
    requires KeyFits(mode, key)
    ensures ReadKey(mode, KeyBytes(key) + rest) == Some(Read(key, |KeyBytes(key)|))
  {
    hide ReadCString, NoZero, ValidUtf8, FromLe, ToLe;
    var s := KeyBytes(key) + rest;
    match key {
      case Name(text) => CStringPrefix(text, rest, MAX_KEY_BYTES);
      case Index(index) =>
        Widths();
        LeRoundTrip(4, index);
        assert s[..4] == ToLe(4, index);
    }
  }

  lemma ValuePrefix(value: Value, rest: seq<Byte>)
    requires ValueFits(value)
    ensures ReadValue(ValueTag(value), ValueBytes(value) + rest) == Some(Read(value, |ValueBytes(value)|))
  {
    hide ReadCString, NoZero, NoWideZero, WideZeroAt, FromLe, ToLe;
    var s := ValueBytes(value) + rest;
    match value {
      case Str(raw) => CStringPrefix(raw, rest, MAX_VALUE_BYTES);
      case Int(v) =>
        Widths();
        LeRoundTrip(4, v);
        assert s[..4] == ToLe(4, v);
      case Word(_, raw) => assert s[..4] == raw;
      case Wide(raw) =>
        WideZeroAtEncoded(raw, rest);
        assert s[..|raw|] == raw;
      case Quad(raw) => assert s[..8] == raw;
    }
  }

  /** Reading gives back exactly the token that was printed, whatever follows it. */
  lemma TokenPrefix(mode: KeyMode, token: Token, rest: seq<Byte>)
    requires TokenFits(mode, token)
    ensures ReadToken(mode, TokenBytes(token) + rest) == Some(Read(token, |TokenBytes(token)|))
  {
    hide ReadKey, ReadValue, KeyBytes, ValueBytes, KeyFits, ValueFits;
    var s := TokenBytes(token) + rest;
    match token {
      case Close =>
      case Open(key) =>
        KeyPrefix(mode, key, rest);
        assert s[1..] == KeyBytes(key) + rest;
      case Item(key, value) => ItemPrefix(mode, key, value, rest);
    }
  }

  lemma ItemPrefix(mode: KeyMode, key: Key, value: Value, rest: seq<Byte>)
    requires KeyFits(mode, key) && ValueFits(value)
    ensures ReadToken(mode, TokenBytes(Item(key, value)) + rest)
            == Some(Read(Item(key, value), |TokenBytes(Item(key, value))|))
  {
    hide ReadKey, ReadValue, KeyBytes, ValueBytes, KeyFits, ValueFits, ValueTag;
    var s := TokenBytes(Item(key, value)) + rest;
    var afterKey := ValueBytes(value) + rest;
    assert s[1..] == KeyBytes(key) + afterKey && s[1 + |KeyBytes(key)|..] == afterKey;
    TagRange(value);
    KeyPrefix(mode, key, afterKey);
    ValuePrefix(value, rest);
  }

  lemma TagRange(value: Value)
    requires ValueFits(value)
    ensures 1 <= ValueTag(value) <= 7
  {
  }

  lemma KeyPrinted(mode: KeyMode, s: seq<Byte>)
    requires ReadKey(mode, s).Some?
    ensures var r := ReadKey(mode, s).value; s[..r.length] == KeyBytes(r.value)
  {
    if mode.Indexed? {
      LeInverse(s[..4]);
    } else {
      var n := ZeroAt(s);
      assert s[..n + 1] == s[..n] + [0];
    }
  }

  lemma ValuePrinted(tag: Byte, s: seq<Byte>)
    requires ReadValue(tag, s).Some?
    ensures var r := ReadValue(tag, s).value; s[..r.length] == ValueBytes(r.value)
  {
    if tag == 1 {
      var n := ZeroAt(s);
      assert s[..n + 1] == s[..n] + [0];
    } else if tag == 2 {
      LeInverse(s[..4]);
    } else if tag == 5 {
      var n := WideZeroAt(s);
      assert s[..n + 2] == s[..n] + [0, 0];
    }
  }

  /** Whatever is read was printed as exactly the bytes consumed. */
  lemma TokenPrinted(mode: KeyMode, s: seq<Byte>)
    requires |s| > 0 && ReadToken(mode, s).Some?
    ensures var r := ReadToken(mode, s).value; s == TokenBytes(r.value) + s[r.length..]
  {
    hide ReadKey, ReadValue, KeyBytes, ValueBytes, KeyFits, ValueFits;
    var r := ReadToken(mode, s).value;
    assert s == s[..r.length] + s[r.length..];
    if s[0] != 8 {
      KeyPrinted(mode, s[1..]);
      var key := ReadKey(mode, s[1..]).value;
      if s[0] == 0 {
        assert s[..r.length] == [0] + s[1..][..key.length];
      } else {
        var after := s[1 + key.length..];
        ValuePrinted(s[0], after);
        var value := ReadValue(s[0], after).value;
        assert s[..r.length] == [s[0]] + (s[1..][..key.length] + after[..value.length]);
      }
    } else {
      assert s[..1] == [8];
    }
  }

  // --- the walk -------------------------------------------------------------------

  /** `walk_binary_vdf` from an intermediate position: the unread bytes, the open
      objects, the number of entries already read and the visitor's state. */
  function WalkFrom<S>(mode: KeyMode, visit: Visitor<S>, s: seq<Byte>, path: seq<Text>, entries: nat,
                       state: S): Result<S>
    decreases |s|
  {
    if s == [] then (if path == [] then Ok(state) else Err)
    else if entries == MAX_ENTRIES then Err
    else match ReadToken(mode, s)
      case None => Err
      case Some(Read(token, n)) =>
        match token
        case Open(key) =>
          if |path| == MAX_DEPTH then Err
          else WalkFrom(mode, visit, s[n..], path + [KeyText(mode, key)], entries + 1, state)
        case Close =>
          if path != [] then WalkFrom(mode, visit, s[n..], path[..|path| - 1], entries + 1, state)
          else if s[n..] == [] then Ok(state)
          else Err
        case Item(key, value) =>
          match visit(state, Event(path, KeyText(mode, key), ScalarOf(value)))
          case Ok(next) => WalkFrom(mode, visit, s[n..], path, entries + 1, next)
          case Err => Err
  }

  function Walk<S>(mode: KeyMode, visit: Visitor<S>, bytes: seq<Byte>, init: S): Result<S>
  {
    WalkFrom(mode, visit, bytes, [], 0, init)
  }

  lemma WalkOpen<S>(mode: KeyMode, visit: Visitor<S>, key: Key, tail: seq<Byte>, path: seq<Text>, entries: nat,
                    state: S)
    requires KeyFits(mode, key) && |path| < MAX_DEPTH && entries < MAX_ENTRIES
    ensures WalkFrom(mode, visit, TokenBytes(Open(key)) + tail, path, entries, state)
            == WalkFrom(mode, visit, tail, path + [KeyText(mode, key)], entries + 1, state)
  {
    hide ReadToken, KeyFits, KeyText;
    var bytes := TokenBytes(Open(key));
    TokenPrefix(mode, Open(key), tail);
    assert (bytes + tail)[|bytes|..] == tail;
  }

  lemma WalkClose<S>(mode: KeyMode, visit: Visitor<S>, tail: seq<Byte>, path: seq<Text>, key: Text, entries: nat,
                     state: S)
    requires entries < MAX_ENTRIES
    ensures WalkFrom(mode, visit, TokenBytes(Close) + tail, path + [key], entries, state)
            == WalkFrom(mode, visit, tail, path, entries + 1, state)
  {
    hide ReadToken;
    TokenPrefix(mode, Close, tail);
    assert (TokenBytes(Close) + tail)[1..] == tail;
    assert (path + [key])[..|path|] == path;
  }

  lemma WalkItem<S>(mode: KeyMode, visit: Visitor<S>, key: Key, value: Value, tail: seq<Byte>,
                    path: seq<Text>, entries: nat, state: S)
    requires KeyFits(mode, key) && ValueFits(value) && entries < MAX_ENTRIES
    ensures WalkFrom(mode, visit, TokenBytes(Item(key, value)) + tail, path, entries, state)
            == match visit(state, Event(path, KeyText(mode, key), ScalarOf(value)))
               case Ok(next) => WalkFrom(mode, visit, tail, path, entries + 1, next)
               case Err => Err
  {
    hide ReadToken, KeyFits, KeyText, ValueFits;
    var bytes := TokenBytes(Item(key, value));
    TokenPrefix(mode, Item(key, value), tail);
    assert (bytes + tail)[|bytes|..] == tail;
  }

  lemma EncodeSplits(doc: Doc, rest: seq<Byte>)
    ensures doc.Entry? ==> Encode(doc) + rest == TokenBytes(Item(doc.key, doc.value)) + (Encode(doc.next) + rest)
    ensures doc.Object? ==>
              Encode(doc) + rest
              == TokenBytes(Open(doc.key)) + (Encode(doc.children) + (TokenBytes(Close) + (Encode(doc.next) + rest)))
  {
    hide TokenBytes;
  }

  /** Walking a printed document visits its flattening and then goes on with
      whatever follows. */
  lemma {:induction false} WalkEncoded<S>(mode: KeyMode, visit: Visitor<S>, doc: Doc, rest: seq<Byte>,
                                          path: seq<Text>, entries: nat, state: S)
    requires Fits(mode, doc)
    requires |path| + Depth(doc) <= MAX_DEPTH && entries + Entries(doc) <= MAX_ENTRIES
    ensures WalkFrom(mode, visit, Encode(doc) + rest, path, entries, state)
            == (match Fold(visit, Flatten(mode, doc, path), state)
                case Ok(next) => WalkFrom(mode, visit, rest, path, entries + Entries(doc), next)
                case Err => Err)
    decreases doc
  {
    hide WalkFrom, KeyFits, KeyText, ValueFits, TokenBytes;
    match doc {
      case End =>
        assert Encode(doc) + rest == rest;
      case Entry(key, value, next) =>
        EncodeSplits(doc, rest);
        WalkItem(mode, visit, key, value, Encode(next) + rest, path, entries, state);
        var event := Event(path, KeyText(mode, key), ScalarOf(value));
        assert Flatten(mode, doc, path)[1..] == Flatten(mode, next, path);
        match visit(state, event) {
          case Ok(mid) => WalkEncoded(mode, visit, next, rest, path, entries + 1, mid);
          case Err =>
        }
      case Object(key, children, next) =>
        var inner := path + [KeyText(mode, key)];
        var after := TokenBytes(Close) + (Encode(next) + rest);
        EncodeSplits(doc, rest);
        WalkOpen(mode, visit, key, Encode(children) + after, path, entries, state);
        WalkEncoded(mode, visit, children, after, inner, entries + 1, state);
        FoldAppend(visit, Flatten(mode, children, inner), Flatten(mode, next, path), state);
        match Fold(visit, Flatten(mode, children, inner), state) {
          case Ok(mid) =>
            WalkClose(mode, visit, Encode(next) + rest, path, KeyText(mode, key), entries + 1 + Entries(children), mid);
            WalkEncoded(mode, visit, next, rest, path, entries + 2 + Entries(children), mid);
          case Err =>
        }
    }
  }

  /** One unfolding of an accepting walk: the next token, as printed, and the rest. */
  lemma WalkStep<S>(mode: KeyMode, visit: Visitor<S>, s: seq<Byte>, path: seq<Text>, entries: nat, state: S)
      returns (token: Token, tail: seq<Byte>)
    requires s != [] && WalkFrom(mode, visit, s, path, entries, state).Ok?
    ensures entries != MAX_ENTRIES && TokenFits(mode, token) && s == TokenBytes(token) + tail
    ensures token.Open? ==> |path| != MAX_DEPTH
    ensures token.Close? ==> path != [] || tail == []
    ensures token.Item? ==> visit(state, Event(path, KeyText(mode, token.key), ScalarOf(token.value))).Ok?
  {
    hide ReadToken, KeyFits, KeyText, ValueFits;
    var Read(t, n) := ReadToken(mode, s).value;
    TokenPrinted(mode, s);
    token, tail := t, s[n..];
  }

  /** Whatever the walk accepts starts with a printed document: `rest` is the end
      byte of the enclosing object, or the optional end byte of the whole. */
  lemma {:induction false} WalkAccepted<S>(mode: KeyMode, visit: Visitor<S>, s: seq<Byte>,
                                           path: seq<Text>, entries: nat, state: S)
      returns (doc: Doc, rest: seq<Byte>)
    requires |path| <= MAX_DEPTH && entries <= MAX_ENTRIES
    requires WalkFrom(mode, visit, s, path, entries, state).Ok?
    ensures s == Encode(doc) + rest && Fits(mode, doc)
    ensures |path| + Depth(doc) <= MAX_DEPTH
    ensures entries + Entries(doc) + (if rest == [] then 0 else 1) <= MAX_ENTRIES
    ensures if path == [] then rest == [] || rest == [8] else rest != [] && rest[0] == 8
    ensures var folded := Fold(visit, Flatten(mode, doc, path), state);
            folded.Ok? && WalkFrom(mode, visit, s, path, entries, state)
                          == WalkFrom(mode, visit, rest, path, entries + Entries(doc), folded.value)
    decreases |s|
  {
    hide WalkFrom, KeyFits, KeyText, ValueFits, TokenBytes;
    if s == [] {
      WalkEmpty(mode, visit, path, entries, state);
      return End, [];
    }
    var token, tail := WalkStep(mode, visit, s, path, entries, state);
    match token {
      case Close =>
        doc, rest := End, s;
        CloseByte(tail);
      case Item(key, value) =>
        WalkItem(mode, visit, key, value, tail, path, entries, state);
        var event := Event(path, KeyText(mode, key), ScalarOf(value));
        var next;
        next, rest := WalkAccepted(mode, visit, tail, path, entries + 1, visit(state, event).value);
        doc := Entry(key, value, next);
        assert Flatten(mode, doc, path)[1..] == Flatten(mode, next, path);
        EncodeSplits(doc, rest);
      case Open(key) =>
        var inner := path + [KeyText(mode, key)];
        WalkOpen(mode, visit, key, tail, path, entries, state);
        var children, after := WalkAccepted(mode, visit, tail, inner, entries + 1, state);
        var mid := Fold(visit, Flatten(mode, children, inner), state).value;
        assert after == TokenBytes(Close) + after[1..] by { CloseByte(after[1..]); }
        WalkClose(mode, visit, after[1..], path, KeyText(mode, key), entries + 1 + Entries(children), mid);
        var next;
        next, rest := WalkAccepted(mode, visit, after[1..], path, entries + 2 + Entries(children), mid);
        doc := Object(key, children, next);
        FoldAppend(visit, Flatten(mode, children, inner), Flatten(mode, next, path), state);
        EncodeSplits(doc, rest);
    }
  }

  lemma CloseByte(tail: seq<Byte>)
    ensures TokenBytes(Close) + tail == [8] + tail
  {
  }

  lemma WalkEmpty<S>(mode: KeyMode, visit: Visitor<S>, path: seq<Text>, entries: nat, state: S)
    ensures WalkFrom(mode, visit, [], path, entries, state) == if path == [] then Ok(state) else Err
  {
  }

  /** The walk accepts exactly the encodings of documents within the limits, and
      returns exactly what visiting the flattened document in order returns. */
  lemma WalkCharacterized<S>(mode: KeyMode, visit: Visitor<S>, bytes: seq<Byte>, init: S, result: S)
    ensures Walk(mode, visit, bytes, init) == Ok(result)
            <==> exists doc, closed :: Encodes(mode, doc, closed, bytes)
                                       && Fold(visit, Flatten(mode, doc, []), init) == Ok(result)
  {
    hide Flatten, Encode, Fits, Depth, Entries, Fold, WalkFrom;
    if Walk(mode, visit, bytes, init) == Ok(result) {
      var doc, rest := WalkAccepted(mode, visit, bytes, [], 0, init);
      WalkFinish(mode, visit, rest, Entries(doc), Fold(visit, Flatten(mode, doc, []), init).value);
      assert Encodes(mode, doc, rest == [8], bytes);
    }
    forall doc, closed | Encodes(mode, doc, closed, bytes)
                         && Fold(visit, Flatten(mode, doc, []), init) == Ok(result)
      ensures Walk(mode, visit, bytes, init) == Ok(result)
    {
      var rest := if closed then [8] else [];
      WalkEncoded(mode, visit, doc, rest, [], 0, init);
      WalkFinish(mode, visit, rest, Entries(doc), result);
    }
  }

  /** At the outermost level the walk may stop at the end or at one end byte. */
  lemma WalkFinish<S>(mode: KeyMode, visit: Visitor<S>, rest: seq<Byte>, entries: nat, state: S)
    requires rest == [] || (rest == [8] && entries < MAX_ENTRIES)
    ensures WalkFrom(mode, visit, rest, [], entries, state) == Ok(state)
  {
  }

  lemma {:induction false} SameDocument(mode: KeyMode, a: Doc, b: Doc, restA: seq<Byte>, restB: seq<Byte>)
    requires Fits(mode, a) && Fits(mode, b)
    requires restA == [] || restA[0] == 8
    requires restB == [] || restB[0] == 8
    requires Encode(a) + restA == Encode(b) + restB
    ensures a == b && restA == restB
    decreases a
  {
    hide Encode, ReadToken, TokenBytes, KeyFits, ValueFits;
    FirstToken(mode, a, restA);
    FirstToken(mode, b, restB);
    match a {
      case End =>
      case Entry(_, _, next) =>
        SameDocument(mode, next, b.next, restA, restB);
      case Object(_, children, next) =>
        var afterA := TokenBytes(Close) + (Encode(next) + restA);
        var afterB := TokenBytes(Close) + (Encode(b.next) + restB);
        CloseByte(Encode(next) + restA);
        CloseByte(Encode(b.next) + restB);
        SameDocument(mode, children, b.children, afterA, afterB);
        assert afterA[1..] == Encode(next) + restA && afterB[1..] == Encode(b.next) + restB;
        SameDocument(mode, next, b.next, restA, restB);
    }
  }

  /** The first token determines how a document starts, and where it goes on. */
  lemma FirstToken(mode: KeyMode, doc: Doc, rest: seq<Byte>)
    requires Fits(mode, doc)
    requires rest == [] || rest[0] == 8
    ensures var s := Encode(doc) + rest;
            match doc
            case End => s == rest
            case Entry(key, value, next) =>
              && |s| > 0 && s[0] != 8
              && ReadToken(mode, s) == Some(Read(Item(key, value), |TokenBytes(Item(key, value))|))
              && s[|TokenBytes(Item(key, value))|..] == Encode(next) + rest
            case Object(key, children, next) =>
              && |s| > 0 && s[0] != 8
              && ReadToken(mode, s) == Some(Read(Open(key), |TokenBytes(Open(key))|))
              && s[|TokenBytes(Open(key))|..] == Encode(children) + (TokenBytes(Close) + (Encode(next) + rest))
  {
    hide ReadToken, KeyFits, ValueFits, KeyBytes, ValueBytes;
    match doc {
      case End =>
      case Entry(key, value, next) =>
        EncodeSplits(doc, rest);
        TokenPrefix(mode, Item(key, value), Encode(next) + rest);
        TagRange(value);
      case Object(key, children, next) =>
        EncodeSplits(doc, rest);
        TokenPrefix(mode, Open(key), Encode(children) + (TokenBytes(Close) + (Encode(next) + rest)));
    }
  }

  /** No byte string encodes two documents. */
  lemma EncodingUnique(mode: KeyMode, a: Doc, b: Doc, closedA: bool, closedB: bool, bytes: seq<Byte>)
    requires Encodes(mode, a, closedA, bytes) && Encodes(mode, b, closedB, bytes)
    ensures a == b && closedA == closedB
  {
    SameDocument(mode, a, b, if closedA then [8] else [], if closedB then [8] else []);
  }
}
