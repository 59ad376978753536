/** The nesting check made before text KeyValues are parsed
    (crates/overcrow-control/src/steam.rs): one pass over the bytes accepts exactly the
    texts whose braces, outside strings and comments, nest properly and not too deep. */
module KeyValuesPreflight {
  import opened Common
  import opened Bytes

  const MAX_KEYVALUES_NESTING_DEPTH := 64

  datatype Brace = Open | Close

  /** Where the pass stands; `token`: inside an unquoted token. */
  datatype Lex = Normal(token: bool) | InString | InComment

  const QUOTE := '"' as int
  const SLASH := '/' as int
  const BACKSLASH := '\\' as int
  const LEFT := '{' as int
  const RIGHT := '}' as int

  predicate LineEnd(b: Byte) { b == '\n' as int || b == '\r' as int }

  predicate Space(b: Byte) { b == ' ' as int || b == '\t' as int || LineEnd(b) }

  /** The braces of a text that are neither quoted nor commented out. */
  function Braces(lex: Lex, s: seq<Byte>): seq<Brace>
    decreases |s|
  {
    if s == [] then []
    else
      match lex
      case Normal(token) =>
        if s[0] == QUOTE then Braces(InString, s[1..])
        else if s[0] == SLASH && !token && |s| > 1 && s[1] == SLASH then Braces(InComment, s[2..])
        else if s[0] == LEFT then [Open] + Braces(Normal(false), s[1..])
        else if s[0] == RIGHT then [Close] + Braces(Normal(false), s[1..])
        else Braces(Normal(!Space(s[0])), s[1..])
      case InString =>
        if s[0] == BACKSLASH then Braces(InString, s[Min(2, |s|)..])
        else Braces(if s[0] == QUOTE then Normal(false) else InString, s[1..])
      case InComment => Braces(if LineEnd(s[0]) then Normal(false) else InComment, s[1..])
  }

  // --- texts ------------------------------------------------------------------------

  /** A character of a quoted string: any but a quote or a backslash, or any at all after a
      backslash. */
  datatype Quotable = Raw(byte: Byte) | Escaped(byte: Byte)

  /** What texts are made of. A comment ends with its line. */
  datatype Piece =
    | Mark(brace: Brace) | Quoted(characters: seq<Quotable>) | Comment(content: seq<Byte>, end: Byte) | Gap(byte: Byte)
    | Token(content: seq<Byte>)

  predicate Ordinary(b: Byte) { b != '"' as int && b != '{' as int && b != '}' as int && !Space(b) }

  predicate PieceOk(piece: Piece)
  {
    match piece
    case Mark(_) => true
    case Quoted(content) =>
      forall i :: 0 <= i < |content| && content[i].Raw? ==>
        content[i].byte != '"' as int && content[i].byte != '\\' as int
    case Comment(content, end) =>
      (forall i :: 0 <= i < |content| ==> !LineEnd(content[i])) && LineEnd(end)
    case Gap(byte) => Space(byte)
    case Token(content) =>
      && |content| > 0 && (forall i :: 0 <= i < |content| ==> Ordinary(content[i]))
      && !(|content| > 1 && content[0] == '/' as int && content[1] == '/' as int)
  }

  /** Nothing that would be read as part of a token comes right after one. */
  predicate Separate(pieces: seq<Piece>)
  {
    && (forall i :: 0 <= i < |pieces| ==> PieceOk(pieces[i]))
    && forall i :: 0 < i < |pieces| && pieces[i - 1].Token? ==> !pieces[i].Token? && !pieces[i].Comment?
  }

  function QuotedBytes(content: seq<Quotable>): seq<Byte>
  {
    if content == [] then []
    else (if content[0].Raw? then [content[0].byte] else ['\\' as int, content[0].byte]) + QuotedBytes(content[1..])
  }

  function PieceBytes(piece: Piece): seq<Byte>
  {
    match piece
    case Mark(Open) => ['{' as int]
    case Mark(Close) => ['}' as int]
    case Quoted(content) => ['"' as int] + QuotedBytes(content) + ['"' as int]
    case Comment(content, end) => ['/' as int, '/' as int] + content + [end]
    case Gap(byte) => [byte]
    case Token(content) => content
  }

  function Written(pieces: seq<Piece>): seq<Byte>
  {
    if pieces == [] then [] else PieceBytes(pieces[0]) + Written(pieces[1..])
  }

  function Marks(pieces: seq<Piece>): seq<Brace>
  {
    if pieces == [] then []
    else (if pieces[0].Mark? then [pieces[0].brace] else []) + Marks(pieces[1..])
  }

  lemma StringGoesOn(c: Quotable, rest: seq<Byte>)
    requires PieceOk(Quoted([c]))
    ensures Braces(InString, (if c.Raw? then [c.byte] else [BACKSLASH, c.byte]) + rest) == Braces(InString, rest)
  {
    assert [c][0] == c;
    if c.Escaped? {
      assert ([BACKSLASH, c.byte] + rest)[2..] == rest;
    }
  }

  lemma FirstByte(lex: Lex, s: seq<Byte>)
    requires s != []
    ensures lex.InString? && s[0] == QUOTE ==> Braces(lex, s) == Braces(Normal(false), s[1..])
    ensures lex.Normal? && s[0] == QUOTE ==> Braces(lex, s) == Braces(InString, s[1..])
    ensures lex.Normal? && s[0] == LEFT ==> Braces(lex, s) == [Open] + Braces(Normal(false), s[1..])
    ensures lex.Normal? && s[0] == RIGHT ==> Braces(lex, s) == [Close] + Braces(Normal(false), s[1..])
    ensures lex.Normal? && Space(s[0]) ==> Braces(lex, s) == Braces(Normal(false), s[1..])
    ensures lex == Normal(false) && |s| > 1 && s[0] == s[1] == SLASH ==> Braces(lex, s) == Braces(InComment, s[2..])
  {
  }

  lemma {:induction false} QuotedHasNoBraces(content: seq<Quotable>, rest: seq<Byte>)
    requires PieceOk(Quoted(content))
    ensures Braces(InString, QuotedBytes(content) + ([QUOTE] + rest)) == Braces(Normal(false), rest)
  {
    hide Braces;
    if content == [] {
      assert QuotedBytes(content) + ([QUOTE] + rest) == [QUOTE] + rest;
      FirstByte(InString, [QUOTE] + rest);
    } else {
      QuotedHasNoBraces(content[1..], rest);
      var more := QuotedBytes(content[1..]) + ([QUOTE] + rest);
      var first := if content[0].Raw? then [content[0].byte] else [BACKSLASH, content[0].byte];
      assert QuotedBytes(content) + ([QUOTE] + rest) == first + more;
      StringGoesOn(content[0], more);
    }
  }

  lemma {:induction false} CommentHasNoBraces(content: seq<Byte>, end: Byte, rest: seq<Byte>)
    requires PieceOk(Comment(content, end))
    ensures Braces(InComment, content + ([end] + rest)) == Braces(Normal(false), rest)
  {
    var s := content + ([end] + rest);
    if content == [] {
      assert s == [end] + rest;
    } else {
      CommentHasNoBraces(content[1..], end, rest);
      assert s == [content[0]] + (content[1..] + ([end] + rest));
    }
  }

  lemma {:induction false} TokenHasNoBraces(content: seq<Byte>, token: bool, rest: seq<Byte>)
    requires |content| > 0 && (forall i :: 0 <= i < |content| ==> Ordinary(content[i]))
    requires token || !(|content| > 1 && content[0] == SLASH && content[1] == SLASH)
    requires rest == [] || rest[0] != SLASH
    ensures Braces(Normal(token), content + rest) == Braces(Normal(true), rest)
  {
    var s := content + rest;
    assert s == [content[0]] + (content[1..] + rest);
    if |content| == 1 {
      assert s[1..] == rest;
    } else {
      TokenHasNoBraces(content[1..], true, rest);
    }
  }

  lemma QuotedPiece(content: seq<Quotable>, token: bool, rest: seq<Byte>)
    requires PieceOk(Quoted(content))
    ensures Braces(Normal(token), PieceBytes(Quoted(content)) + rest) == Braces(Normal(false), rest)
  {
    hide Braces, QuotedBytes;
    var s := PieceBytes(Quoted(content)) + rest;
    assert s[1..] == QuotedBytes(content) + ([QUOTE] + rest);
    FirstByte(Normal(token), s);
    QuotedHasNoBraces(content, rest);
  }

  lemma CommentPiece(content: seq<Byte>, end: Byte, rest: seq<Byte>)
    requires PieceOk(Comment(content, end))
    ensures Braces(Normal(false), PieceBytes(Comment(content, end)) + rest) == Braces(Normal(false), rest)
  {
    hide Braces;
    var s := PieceBytes(Comment(content, end)) + rest;
    assert s[2..] == content + ([end] + rest);
    FirstByte(Normal(false), s);
    CommentHasNoBraces(content, end, rest);
  }

  lemma BracesOfPiece(piece: Piece, token: bool, rest: seq<Byte>)
    requires PieceOk(piece) && (token ==> !piece.Token? && !piece.Comment?)
    requires piece.Token? ==> rest == [] || rest[0] != SLASH
    ensures Braces(Normal(token), PieceBytes(piece) + rest)
            == (if piece.Mark? then [piece.brace] else []) + Braces(Normal(piece.Token?), rest)
  {
    hide Braces, QuotedBytes;
    match piece {
      case Quoted(content) => QuotedPiece(content, token, rest);
      case Comment(content, end) => CommentPiece(content, end, rest);
      case Token(content) => TokenHasNoBraces(content, token, rest);
      case _ =>
        FirstByte(Normal(token), PieceBytes(piece) + rest);
        assert (PieceBytes(piece) + rest)[1..] == rest;
    }
  }

  /** The braces of a text made of such pieces are its brace pieces, in order: no quoted
      string, comment or token adds any. */
  lemma {:induction false} BracesOfPieces(pieces: seq<Piece>, token: bool)
    requires Separate(pieces) && (token && pieces != [] ==> !pieces[0].Token? && !pieces[0].Comment?)
    ensures Braces(Normal(token), Written(pieces)) == Marks(pieces)
    decreases |pieces|
  {
    if pieces != [] {
      hide Braces, PieceOk;
      assert forall i :: 0 <= i < |pieces| - 1 ==> pieces[1..][i] == pieces[i + 1];
      BracesOfPieces(pieces[1..], pieces[0].Token?);
      if pieces[0].Token? {
        NoSlashAhead(pieces);
      }
      BracesOfPiece(pieces[0], token, Written(pieces[1..]));
    }
  }

  lemma NoSlashAhead(pieces: seq<Piece>)
    requires Separate(pieces) && pieces != [] && pieces[0].Token?
    ensures var rest := Written(pieces[1..]); rest == [] || rest[0] != SLASH
  {
    if |pieces| > 1 {
      assert pieces[1..][0] == pieces[1] && pieces[0].Token?;
    }
  }

  // --- nesting ----------------------------------------------------------------------

  /** Blocks side by side, each holding blocks. */
  datatype Forest = Nil | Block(children: Forest, next: Forest)

  function Word(f: Forest): seq<Brace>
  {
    if f.Nil? then [] else [Open] + Word(f.children) + [Close] + Word(f.next)
  }

  function Depth(f: Forest): nat
  {
    if f.Nil? then 0 else Max(1 + Depth(f.children), Depth(f.next))
  }

  /** The count the pass keeps never falls below zero nor exceeds the limit, and ends at zero. */
  predicate Balanced(braces: seq<Brace>, depth: nat)
  {
    if braces == [] then depth == 0
    else if braces[0].Open? then depth < MAX_KEYVALUES_NESTING_DEPTH && Balanced(braces[1..], depth + 1)
    else depth > 0 && Balanced(braces[1..], depth - 1)
  }

  datatype Verdict = Passed | TooDeep | Unbalanced

  /** The verdict of the pass, which stops at the first brace that makes the count wrong. */
  function Judged(braces: seq<Brace>, depth: nat): Verdict
  {
    if braces == [] then if depth == 0 then Passed else Unbalanced
    else if braces[0].Open? then
      if depth == MAX_KEYVALUES_NESTING_DEPTH then TooDeep else Judged(braces[1..], depth + 1)
    else if depth == 0 then Unbalanced else Judged(braces[1..], depth - 1)
  }

  /** Opening less closing braces. */
  function Height(braces: seq<Brace>): int
  {
    if braces == [] then 0 else Height(braces[..|braces| - 1]) + if braces[|braces| - 1].Open? then 1 else -1
  }

  /** The height is within bounds up to `i`. */
  ghost predicate Sane(braces: seq<Brace>, i: nat)
  {
    i <= |braces| && forall j :: 0 <= j <= i ==> 0 <= Height(braces[..j]) <= MAX_KEYVALUES_NESTING_DEPTH
  }

  /** The brace at `i` is the first to leave the bounds, and it is one too many opened. */
  ghost predicate Overflows(braces: seq<Brace>, i: nat)
  {
    i < |braces| && Sane(braces, i) && Height(braces[..i + 1]) > MAX_KEYVALUES_NESTING_DEPTH
  }

  lemma {:induction false} JudgedFrom(braces: seq<Brace>, k: nat)
    requires Sane(braces, k)
    ensures var verdict, depth := Judged(braces[k..], Height(braces[..k])), Height(braces[..k]);
            && (verdict.Passed? <==> Balanced(braces[k..], depth))
            && (verdict.Passed? <==> Sane(braces, |braces|) && Height(braces) == 0)
            && (verdict.TooDeep? <==> exists i: nat :: k <= i && Overflows(braces, i))
    decreases |braces| - k
  {
    hide Sane;
    SaneAt(braces, k);
    SaneAt(braces, k + 1);
    if k == |braces| {
      assert braces[..k] == braces;
    } else {
      assert braces[..k + 1][..k] == braces[..k] && braces[k..][1..] == braces[k + 1..];
      var next := Height(braces[..k + 1]);
      if 0 <= next <= MAX_KEYVALUES_NESTING_DEPTH {
        JudgedFrom(braces, k + 1);
        assert !Overflows(braces, k);
      } else {
        assert forall i: nat :: k < i ==> !Sane(braces, i);
        assert next > MAX_KEYVALUES_NESTING_DEPTH ==> Overflows(braces, k);
      }
    }
  }

  lemma SaneAt(braces: seq<Brace>, k: nat)
    ensures Sane(braces, k) ==> k <= |braces| && 0 <= Height(braces[..k]) <= MAX_KEYVALUES_NESTING_DEPTH
    ensures Sane(braces, k) && k < |braces| ==>
              (Sane(braces, k + 1) <==> 0 <= Height(braces[..k + 1]) <= MAX_KEYVALUES_NESTING_DEPTH)
    ensures forall i: nat :: k <= i && Sane(braces, i) ==> Sane(braces, k)
  {
  }

  /** What each verdict means: a text passes if the height stays within bounds and ends at
      zero, it is too deep if the first thing to go wrong is one brace too many opened,
      and it is unbalanced in every other case. */
  lemma JudgedByHeight(braces: seq<Brace>)
    ensures Judged(braces, 0).Passed? <==> Balanced(braces, 0)
    ensures Judged(braces, 0).Passed? <==> Sane(braces, |braces|) && Height(braces) == 0
    ensures Judged(braces, 0).TooDeep? <==> exists i: nat :: Overflows(braces, i)
  {
    assert braces[..0] == [] && braces[0..] == braces;
    JudgedFrom(braces, 0);
  }

  lemma WordBlock(children: Forest, next: Forest, rest: seq<Brace>)
    ensures Word(Block(children, next)) + rest == [Open] + (Word(children) + ([Close] + (Word(next) + rest)))
  {
    assert Word(Block(children, next)) == [Open] + Word(children) + [Close] + Word(next);
  }

  lemma {:induction false} WordBalanced(f: Forest, rest: seq<Brace>, depth: nat)
    requires depth + Depth(f) <= MAX_KEYVALUES_NESTING_DEPTH
    ensures Balanced(Word(f) + rest, depth) == Balanced(rest, depth)
  {
    if f.Nil? {
      assert Word(f) + rest == rest;
    } else {
      var after := [Close] + (Word(f.next) + rest);
      WordBlock(f.children, f.next, rest);
      WordBalanced(f.children, after, depth + 1);
      WordBalanced(f.next, rest, depth);
    }
  }

  lemma {:induction false} BalancedParses(braces: seq<Brace>, depth: nat) returns (f: Forest, rest: seq<Brace>)
    requires Balanced(braces, depth)
    ensures braces == Word(f) + rest && depth + Depth(f) <= Max(depth, MAX_KEYVALUES_NESTING_DEPTH)
    ensures Balanced(rest, depth) && (rest != [] ==> rest[0].Close?)
    decreases |braces|
  {
    if braces == [] || braces[0].Close? {
      return Nil, braces;
    }
    var children, after := BalancedParses(braces[1..], depth + 1);
    var next;
    next, rest := BalancedParses(after[1..], depth);
    f := Block(children, next);
    WordBlock(children, next, rest);
    assert braces == [Open] + braces[1..] && after == [Close] + after[1..];
  }

  /** The check passes exactly if the braces are those of blocks nested at most 64 deep. */
  lemma AcceptsNestedBlocks(bytes: seq<Byte>)
    ensures var braces := Braces(Normal(false), bytes);
            Judged(braces, 0).Passed? <==> exists f :: Word(f) == braces && Depth(f) <= MAX_KEYVALUES_NESTING_DEPTH
  {
    var braces := Braces(Normal(false), bytes);
    JudgedByHeight(braces);
    if Balanced(braces, 0) {
      var f, rest := BalancedParses(braces, 0);
      assert rest == [];
      assert Word(f) == braces;
    }
    forall f | Word(f) == braces && Depth(f) <= MAX_KEYVALUES_NESTING_DEPTH
      ensures Balanced(braces, 0)
    {
      WordBalanced(f, [], 0);
      assert Word(f) + [] == Word(f);
    }
  }

  method Preflight(bytes: seq<Byte>) returns (verdict: Verdict)
    ensures verdict == Judged(Braces(Normal(false), bytes), 0)
  {
    ghost var goal := Judged(Braces(Normal(false), bytes), 0);
    var lex, depth: nat, index := Normal(false), 0, 0;
    assert bytes[0..] == bytes;
    while index < |bytes|
      invariant 0 <= index <= |bytes|
      invariant depth <= MAX_KEYVALUES_NESTING_DEPTH && Judged(Braces(lex, bytes[index..]), depth) == goal
    {
      var byte := bytes[index];
      ghost var rest := bytes[index..];
      match lex {
        case Normal(token) =>
          if byte == QUOTE {
            lex := InString;
          } else if byte == SLASH && !token && index + 1 < |bytes| && bytes[index + 1] == SLASH {
            lex := InComment;
            index := index + 1;
          } else if byte == LEFT {
            lex := Normal(false);
            depth := depth + 1;
            if depth > MAX_KEYVALUES_NESTING_DEPTH {
              return TooDeep;
            }
          } else if byte == RIGHT {
            lex := Normal(false);
            if depth == 0 {
              return Unbalanced;
            }
            depth := depth - 1;
          } else {
            lex := Normal(!Space(byte));
          }
        case InString =>
          if byte == BACKSLASH {
            index := index + if index + 1 < |bytes| then 1 else 0;
          } else if byte == QUOTE {
            lex := Normal(false);
          }
        case InComment =>
          if LineEnd(byte) {
            lex := Normal(false);
          }
      }
      index := index + 1;
      assert bytes[index..] == rest[|rest| - (|bytes| - index)..];
    }
    verdict := if depth == 0 then Passed else Unbalanced;
  }
}
