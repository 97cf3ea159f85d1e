/** The token model of src/tokens.rs: the closed set of token kinds, the
    `Token` record of kind, lexeme and line, its constructor, and its
    `Display` form `"<kind-debug> <lexeme>"`.

    The derived `Debug` rendering of a kind is modelled: a unit variant
    prints its name, `Identifer` and `String` print their name and the
    quoted, escaped text in parentheses. `ReadDisplay` reads a displayed
    token back, and `DisplayRoundTrip` proves that it recovers the kind and
    the lexeme for every kind except `Number`, so the display loses nothing
    of the kind and the lexeme; the line is not printed. The `f64` payload of `Number`
    is kept as its bit pattern and its `Debug` text is supplied by the
    caller (`floatDebug`). */
module Tokens {

  datatype Option<T> = None | Some(value: T)

  /** Rust's `usize` on a 64-bit target. */
  newtype Usize = x: int | 0 <= x < 0x1_0000_0000_0000_0000

  /** An IEEE 754 double, kept as its bit pattern: the model never
      computes with it. */
  datatype F64 = F64(bits: bv64)

  /** `TokenType<'t>`. Only `Identifer`, `String` and `Number` carry data;
      the borrowed `&str` payloads are modelled as strings. */
  datatype TokenType =
    // Single-character tokens
    | LeftParen | RightParen | LeftBrace | RightBrace | Comma | Dot
    | Minus | Plus | Semicolon | Slash | Star
    // One or two character tokens
    | Bang | BangEqual | Equal | EqualEqual
    | Greater | GreaterEqual | Less | LessEqual
    // Literals
    | Identifer(name: string) | String(text: string) | Number(value: F64)
    // Keywords
    | And | Class | Else | False | Fun | For | If | Nil | Or
    | Print | Return | Super | This | True | Var | While
    | Eof
  {
    predicate HasPayload()
    {
      Identifer? || String? || Number?
    }

    predicate IsSingleChar()
    {
      LeftParen? || RightParen? || LeftBrace? || RightBrace? || Comma? || Dot?
      || Minus? || Plus? || Semicolon? || Slash? || Star?
    }

    predicate IsOneOrTwoChar()
    {
      Bang? || BangEqual? || Equal? || EqualEqual?
      || Greater? || GreaterEqual? || Less? || LessEqual?
    }

    predicate IsKeyword()
    {
      And? || Class? || Else? || False? || Fun? || For? || If? || Nil? || Or?
      || Print? || Return? || Super? || This? || True? || Var? || While?
    }
  }

  /** The kinds form a closed set: every kind is exactly one of the eleven
      single-character tokens, the eight one-or-two-character operators, the
      three payload variants, the sixteen keywords or `Eof`. */
  lemma KindsAreClosed(k: TokenType)
    ensures k.IsSingleChar() || k.IsOneOrTwoChar() || k.HasPayload() || k.IsKeyword() || k.Eof?
    ensures !(k.IsSingleChar() && k.IsOneOrTwoChar()) && !(k.IsSingleChar() && k.HasPayload())
    ensures !(k.IsSingleChar() && k.IsKeyword()) && !(k.IsOneOrTwoChar() && k.HasPayload())
    ensures !(k.IsOneOrTwoChar() && k.IsKeyword()) && !(k.HasPayload() && k.IsKeyword())
    ensures k.Eof? ==> !k.IsSingleChar() && !k.IsOneOrTwoChar() && !k.HasPayload() && !k.IsKeyword()
  {
  }

  /** `Token<'s>`: a kind, the lexeme it was read from, and its line. */
  datatype Token = Token(tokenType: TokenType, lexme: string, line: Usize)

  /** `Token::new` stores its three arguments unchanged. */
  function NewToken(tokenType: TokenType, lexme: string, line: Usize): (t: Token)
    ensures t.tokenType == tokenType && t.lexme == lexme && t.line == line
  {
    Token(tokenType, lexme, line)
  }

  // ---------------------------------------------------------------------
  // Debug rendering

  function HexDigit(n: nat): char
    requires n < 16
  {
    "0123456789abcdef"[n]
  }

  /** Lower-case hexadecimal without leading zeros, for values below 256. */
  function Hex(n: nat): string
    requires n < 256
  {
    if n < 16 then [HexDigit(n)] else [HexDigit(n / 16), HexDigit(n % 16)]
  }

  /** An ASCII control character other than those with a named escape is
      not printable and is written as `\u{..}`. */
  predicate IsAsciiControl(c: char)
  {
    c as int < 0x20 || c as int == 0x7F
  }

  /** `char::escape_debug` as `<str as Debug>` uses it: named escapes for
      NUL, tab, carriage return, line feed, backslash and double quote, and
      `\u{..}` for the other ASCII control characters. */
  function EscapeChar(c: char): (e: string)
    ensures e == [c] <==> !IsAsciiControl(c) && c != '\\' && c != '"'
    ensures e != [c] ==> 2 <= |e| <= 6 && e[0] == '\\'
  {
    if c == '\0' then "\\0"
    else if c == '\t' then "\\t"
    else if c == '\r' then "\\r"
    else if c == '\n' then "\\n"
    else if c == '\\' then "\\\\"
    else if c == '"' then "\\\""
    else if IsAsciiControl(c) then "\\u{" + Hex(c as int) + "}"
    else [c]
  }

  /** The escaped text; text with nothing to escape is printed unchanged. */
  function Escape(s: string): (r: string)
    ensures |r| >= |s|
    ensures (forall i :: 0 <= i < |s| ==> EscapeChar(s[i]) == [s[i]]) ==> r == s
  {
    if s == [] then [] else EscapeChar(s[0]) + Escape(s[1..])
  }

  /** `<str as Debug>::fmt`: the escaped text between double quotes. */
  function StrDebug(s: string): (r: string)
    ensures |r| >= 2 && r[0] == '"' && ReadEscaped(r[1..]) == Some((s, []))
  {
    ReadEscapedOfEscape(s, []);
    assert ("\"" + Escape(s) + "\"")[1..] == Escape(s) + "\"" + [];
    "\"" + Escape(s) + "\""
  }

  /** The derived `Debug` of a kind. */
  function KindDebug(k: TokenType, floatDebug: F64 -> string): string
  {
    match k
    case Identifer(name) => "Identifer(" + StrDebug(name) + ")"
    case String(text) => "String(" + StrDebug(text) + ")"
    case Number(value) => "Number(" + floatDebug(value) + ")"
    case _ => UnitName(k)
  }

  function UnitName(k: TokenType): string
  {
    match k
    case LeftParen => "LeftParen"
    case RightParen => "RightParen"
    case LeftBrace => "LeftBrace"
    case RightBrace => "RightBrace"
    case Comma => "Comma"
    case Dot => "Dot"
    case Minus => "Minus"
    case Plus => "Plus"
    case Semicolon => "Semicolon"
    case Slash => "Slash"
    case Star => "Star"
    case Bang => "Bang"
    case BangEqual => "BangEqual"
    case Equal => "Equal"
    case EqualEqual => "EqualEqual"
    case Greater => "Greater"
    case GreaterEqual => "GreaterEqual"
    case Less => "Less"
    case LessEqual => "LessEqual"
    case Identifer(_) => "Identifer"
    case String(_) => "String"
    case Number(_) => "Number"
    case And => "And"
    case Class => "Class"
    case Else => "Else"
    case False => "False"
    case Fun => "Fun"
    case For => "For"
    case If => "If"
    case Nil => "Nil"
    case Or => "Or"
    case Print => "Print"
    case Return => "Return"
    case Super => "Super"
    case This => "This"
    case True => "True"
    case Var => "Var"
    case While => "While"
    case Eof => "Eof"
  }

  /** `impl Display for Token`: the kind's `Debug`, one space, the lexeme. */
  function Display(t: Token, floatDebug: F64 -> string): string
  {
    KindDebug(t.tokenType, floatDebug) + " " + t.lexme
  }

  // ---------------------------------------------------------------------
  // Reading a displayed token back

  /** A variant name ends at the space before the lexeme or at the
      parenthesis before a payload. */
  predicate EndsName(c: char)
  {
    c == ' ' || c == '('
  }

  /** Length of the leading variant name. */
  function NameLength(s: string): (n: nat)
    ensures n <= |s|
  {
    if s == [] || EndsName(s[0]) then 0 else 1 + NameLength(s[1..])
  }

  /** The variant without data a name denotes, if any. The lookup goes by
      length and first letter before comparing whole names. */
  function UnitKind(name: string): Option<TokenType>
  {
    if name == [] then None
    else if |name| == 2 then
      if name[0] == 'I' then
        (if name == "If" then Some(If) else None)
      else if name[0] == 'O' then
        (if name == "Or" then Some(Or) else None)
      else None
    else if |name| == 3 then
      if name[0] == 'D' then
        (if name == "Dot" then Some(Dot) else None)
      else if name[0] == 'A' then
        (if name == "And" then Some(And) else None)
      else if name[0] == 'F' then
        (if name == "Fun" then Some(Fun) else if name == "For" then Some(For) else None)
      else if name[0] == 'N' then
        (if name == "Nil" then Some(Nil) else None)
      else if name[0] == 'V' then
        (if name == "Var" then Some(Var) else None)
      else if name[0] == 'E' then
        (if name == "Eof" then Some(Eof) else None)
      else None
    else if |name| == 4 then
      if name[0] == 'P' then
        (if name == "Plus" then Some(Plus) else None)
      else if name[0] == 'S' then
        (if name == "Star" then Some(Star) else None)
      else if name[0] == 'B' then
        (if name == "Bang" then Some(Bang) else None)
      else if name[0] == 'L' then
        (if name == "Less" then Some(Less) else None)
      else if name[0] == 'E' then
        (if name == "Else" then Some(Else) else None)
      else if name[0] == 'T' then
        (if name == "This" then Some(This) else if name == "True" then Some(True) else None)
      else None
    else if |name| == 5 then
      if name[0] == 'C' then
        (if name == "Comma" then Some(Comma) else if name == "Class" then Some(Class) else None)
      else if name[0] == 'M' then
        (if name == "Minus" then Some(Minus) else None)
      else if name[0] == 'S' then
        (if name == "Slash" then Some(Slash) else if name == "Super" then Some(Super) else None)
      else if name[0] == 'E' then
        (if name == "Equal" then Some(Equal) else None)
      else if name[0] == 'F' then
        (if name == "False" then Some(False) else None)
      else if name[0] == 'P' then
        (if name == "Print" then Some(Print) else None)
      else if name[0] == 'W' then
        (if name == "While" then Some(While) else None)
      else None
    else if |name| == 6 then
      if name[0] == 'R' then
        (if name == "Return" then Some(Return) else None)
      else None
    else if |name| == 7 then
      if name[0] == 'G' then
        (if name == "Greater" then Some(Greater) else None)
      else None
    else if |name| == 9 then
      if name[0] == 'L' then
        (if name == "LeftParen" then Some(LeftParen) else if name == "LeftBrace" then Some(LeftBrace) else if name == "LessEqual" then Some(LessEqual) else None)
      else if name[0] == 'S' then
        (if name == "Semicolon" then Some(Semicolon) else None)
      else if name[0] == 'B' then
        (if name == "BangEqual" then Some(BangEqual) else None)
      else None
    else if |name| == 10 then
      if name[0] == 'R' then
        (if name == "RightParen" then Some(RightParen) else if name == "RightBrace" then Some(RightBrace) else None)
      else if name[0] == 'E' then
        (if name == "EqualEqual" then Some(EqualEqual) else None)
      else None
    else if |name| == 12 then
      if name[0] == 'G' then
        (if name == "GreaterEqual" then Some(GreaterEqual) else None)
      else None
    else None
  }

  function HexValue(c: char): Option<nat>
  {
    if '0' <= c <= '9' then Some(c as int - '0' as int)
    else if 'a' <= c <= 'f' then Some(c as int - 'a' as int + 10)
    else None
  }

  /** Decodes one backslash escape at the head of `e`: the character and
      the number of characters the escape takes. */
  function DecodeEscape(e: string): (r: Option<(char, nat)>)
    requires |e| >= 1 && e[0] == '\\'
    ensures r.Some? ==> 1 <= r.value.1 <= |e|
  {
    if |e| < 2 then None
    else if e[1] == '0' then Some(('\0', 2))
    else if e[1] == 't' then Some(('\t', 2))
    else if e[1] == 'r' then Some(('\r', 2))
    else if e[1] == 'n' then Some(('\n', 2))
    else if e[1] == '\\' then Some(('\\', 2))
    else if e[1] == '"' then Some(('"', 2))
    else if e[1] == 'u' && |e| >= 5 && e[2] == '{' && HexValue(e[3]).Some? && e[4] == '}' then
      Some((HexValue(e[3]).value as char, 5))
    else if e[1] == 'u' && |e| >= 6 && e[2] == '{' && HexValue(e[3]).Some? && HexValue(e[4]).Some? && e[5] == '}' then
      Some(((16 * HexValue(e[3]).value + HexValue(e[4]).value) as char, 6))
    else None
  }

  /** Decodes escaped text up to its closing double quote: the text, and
      what follows the quote. */
  function ReadEscaped(e: string): Option<(string, string)>
    decreases |e|
  {
    if e == [] then None
    else if e[0] == '"' then Some(([], e[1..]))
    else if e[0] != '\\' then
      match ReadEscaped(e[1..])
      case None => None
      case Some((text, after)) => Some(([e[0]] + text, after))
    else
      match DecodeEscape(e)
      case None => None
      case Some((c, len)) =>
        match ReadEscaped(e[len..])
        case None => None
        case Some((text, after)) => Some(([c] + text, after))
  }

  /** Reads back the text of a payload variant displayed as
      `Name("..") lexeme`, starting just after the opening quote. */
  function ReadPayload(rest: string): Option<(string, string)>
  {
    match ReadEscaped(rest)
    case None => None
    case Some((text, after)) =>
      if |after| >= 2 && after[0] == ')' && after[1] == ' ' then Some((text, after[2..]))
      else None
  }

  /** Reads `"..") lexeme` after the name of a payload variant. */
  function ReadPayloadKind(name: string, rest: string): Option<(TokenType, string)>
  {
    if name == "Identifer" || name == "String" then
      match ReadPayload(rest)
      case None => None
      case Some((text, lexme)) =>
        Some((if name == "Identifer" then Identifer(text) else String(text), lexme))
    else None
  }

  /** Reads the lexeme after the name of a variant without data. */
  function ReadUnitKind(name: string, lexme: string): Option<(TokenType, string)>
  {
    match UnitKind(name)
    case None => None
    case Some(k) => Some((k, lexme))
  }

  /** The kind and lexeme a displayed token was made of, for every kind but
      `Number`, whose text would need a float parser. */
  function ReadDisplay(r: string): Option<(TokenType, string)>
  {
    var n := NameLength(r);
    if n + 1 < |r| && r[n] == '(' && r[n + 1] == '"' then ReadPayloadKind(r[..n], r[n + 2..])
    else if n < |r| && r[n] == ' ' then ReadUnitKind(r[..n], r[n + 1..])
    else None
  }

  // ---------------------------------------------------------------------
  // Properties

  // The name table is checked four rows at a time to keep each proof small.

  lemma NamesReadBack0(k: TokenType)
    requires k.LeftParen? || k.RightParen? || k.LeftBrace? || k.RightBrace?
    ensures ' ' !in UnitName(k) && '(' !in UnitName(k)
    ensures UnitKind(UnitName(k)) == Some(k)
  {
    match k
    case LeftParen =>
    case RightParen =>
    case LeftBrace =>
    case RightBrace =>
  }

  lemma NamesReadBack1(k: TokenType)
    requires k.Comma? || k.Dot? || k.Minus? || k.Plus?
    ensures ' ' !in UnitName(k) && '(' !in UnitName(k)
    ensures UnitKind(UnitName(k)) == Some(k)
  {
    match k
    case Comma =>
    case Dot =>
    case Minus =>
    case Plus =>
  }

  lemma NamesReadBack2(k: TokenType)
    requires k.Semicolon? || k.Slash? || k.Star? || k.Bang?
    ensures ' ' !in UnitName(k) && '(' !in UnitName(k)
    ensures UnitKind(UnitName(k)) == Some(k)
  {
    match k
    case Semicolon =>
    case Slash =>
    case Star =>
    case Bang =>
  }

  lemma NamesReadBack3(k: TokenType)
    requires k.BangEqual? || k.Equal? || k.EqualEqual? || k.Greater?
    ensures ' ' !in UnitName(k) && '(' !in UnitName(k)
    ensures UnitKind(UnitName(k)) == Some(k)
  {
    match k
    case BangEqual =>
    case Equal =>
    case EqualEqual =>
    case Greater =>
  }

  lemma NamesReadBack4(k: TokenType)
    requires k.GreaterEqual? || k.Less? || k.LessEqual? || k.And?
    ensures ' ' !in UnitName(k) && '(' !in UnitName(k)
    ensures UnitKind(UnitName(k)) == Some(k)
  {
    match k
    case GreaterEqual =>
    case Less =>
    case LessEqual =>
    case And =>
  }

  lemma NamesReadBack5(k: TokenType)
    requires k.Class? || k.Else? || k.False? || k.Fun?
    ensures ' ' !in UnitName(k) && '(' !in UnitName(k)
    ensures UnitKind(UnitName(k)) == Some(k)
  {
    match k
    case Class =>
    case Else =>
    case False =>
    case Fun =>
  }

  lemma NamesReadBack6(k: TokenType)
    requires k.For? || k.If? || k.Nil? || k.Or?
    ensures ' ' !in UnitName(k) && '(' !in UnitName(k)
    ensures UnitKind(UnitName(k)) == Some(k)
  {
    match k
    case For =>
    case If =>
    case Nil =>
    case Or =>
  }

  lemma NamesReadBack7(k: TokenType)
    requires k.Print? || k.Return? || k.Super? || k.This?
    ensures ' ' !in UnitName(k) && '(' !in UnitName(k)
    ensures UnitKind(UnitName(k)) == Some(k)
  {
    match k
    case Print =>
    case Return =>
    case Super =>
    case This =>
  }

  lemma NamesReadBack8(k: TokenType)
    requires k.True? || k.Var? || k.While? || k.Eof?
    ensures ' ' !in UnitName(k) && '(' !in UnitName(k)
    ensures UnitKind(UnitName(k)) == Some(k)
  {
    match k
    case True =>
    case Var =>
    case While =>
    case Eof =>
  }

  /** A variant name holds no space or parenthesis, and the name of a
      variant without data reads back as that variant. */
  lemma UnitNameReadsBack(k: TokenType)
    ensures ' ' !in UnitName(k) && '(' !in UnitName(k)
    ensures !k.HasPayload() ==> UnitKind(UnitName(k)) == Some(k)
  {
    if k.LeftParen? || k.RightParen? || k.LeftBrace? || k.RightBrace? {
      NamesReadBack0(k);
    } else if k.Comma? || k.Dot? || k.Minus? || k.Plus? {
      NamesReadBack1(k);
    } else if k.Semicolon? || k.Slash? || k.Star? || k.Bang? {
      NamesReadBack2(k);
    } else if k.BangEqual? || k.Equal? || k.EqualEqual? || k.Greater? {
      NamesReadBack3(k);
    } else if k.GreaterEqual? || k.Less? || k.LessEqual? || k.And? {
      NamesReadBack4(k);
    } else if k.Class? || k.Else? || k.False? || k.Fun? {
      NamesReadBack5(k);
    } else if k.For? || k.If? || k.Nil? || k.Or? {
      NamesReadBack6(k);
    } else if k.Print? || k.Return? || k.Super? || k.This? {
      NamesReadBack7(k);
    } else if k.True? || k.Var? || k.While? || k.Eof? {
      NamesReadBack8(k);
    }
  }

  lemma {:induction false} NameLengthOf(name: string, rest: string)
    requires ' ' !in name && '(' !in name
    requires rest != [] && EndsName(rest[0])
    ensures NameLength(name + rest) == |name|
  {
    if name != [] {
      assert name[0] in name;
      assert (name + rest)[1..] == name[1..] + rest;
      assert forall c :: c in name[1..] ==> c in name;
      NameLengthOf(name[1..], rest);
    } else {
      assert name + rest == rest;
    }
  }

  lemma DecodeOneDigitEscape(c: char, tail: string)
    requires IsAsciiControl(c) && c != '\0' && c != '\t' && c != '\r' && c != '\n' && c as int < 16
    ensures DecodeEscape(EscapeChar(c) + tail) == Some((c, |EscapeChar(c)|))
  {
  }

  lemma DecodeTwoDigitEscape(c: char, tail: string)
    requires IsAsciiControl(c) && c as int >= 16
    ensures DecodeEscape(EscapeChar(c) + tail) == Some((c, |EscapeChar(c)|))
  {
  }

  lemma DecodeEscapeChar(c: char, tail: string)
    requires EscapeChar(c) != [c]
    ensures DecodeEscape(EscapeChar(c) + tail) == Some((c, |EscapeChar(c)|))
  {
    if IsAsciiControl(c) && c != '\0' && c != '\t' && c != '\r' && c != '\n' {
      if c as int < 16 {
        DecodeOneDigitEscape(c, tail);
      } else {
        DecodeTwoDigitEscape(c, tail);
      }
    }
  }

  /** One escaped character in front of readable text reads back as that
      character in front of the text. */
  lemma ReadEscapedStep(c: char, tail: string, text: string, after: string)
    requires ReadEscaped(tail) == Some((text, after))
    ensures ReadEscaped(EscapeChar(c) + tail) == Some(([c] + text, after))
  {
    var e := EscapeChar(c) + tail;
    if EscapeChar(c) == [c] {
      assert e[0] == c && c != '"' && c != '\\';
      assert e[1..] == tail;
    } else {
      DecodeEscapeChar(c, tail);
      assert e[0] == '\\';
      assert e[|EscapeChar(c)|..] == tail;
    }
  }

  lemma EscapeHead(s: string, after: string)
    requires s != []
    ensures Escape(s) + after == EscapeChar(s[0]) + (Escape(s[1..]) + after)
  {
  }

  /** Escaped text followed by a closing quote reads back as the text, and
      reading stops just after that quote. */
  lemma {:induction false} ReadEscapedOfEscape(s: string, after: string)
    ensures ReadEscaped(Escape(s) + "\"" + after) == Some((s, after))
  {
    var q := "\"" + after;
    assert Escape(s) + "\"" + after == Escape(s) + q;
    if s == [] {
      assert Escape(s) + q == q && q[1..] == after;
    } else {
      ReadEscapedOfEscape(s[1..], after);
      assert Escape(s[1..]) + "\"" + after == Escape(s[1..]) + q;
      EscapeHead(s, q);
      ReadEscapedStep(s[0], Escape(s[1..]) + q, s[1..], after);
      assert [s[0]] + s[1..] == s;
    }
  }

  lemma ReadPayloadOfDebug(text: string, lexme: string)
    ensures ReadPayload(Escape(text) + "\")" + " " + lexme) == Some((text, lexme))
  {
    var after := ") " + lexme;
    assert Escape(text) + "\")" + " " + lexme == Escape(text) + "\"" + after;
    ReadEscapedOfEscape(text, after);
    assert after[2..] == lexme;
  }

  /** A payload variant's display, `Name("escaped text") lexeme`, reads
      back as the variant with its text, and the lexeme. */
  lemma ReadDisplayOfPayload(name: string, rest: string)
    requires ' ' !in name && '(' !in name
    ensures ReadDisplay(name + "(\"" + rest) == ReadPayloadKind(name, rest)
  {
    var tail := "(\"" + rest;
    var r := name + tail;
    assert name + "(\"" + rest == r;
    NameLengthOf(name, tail);
    assert r[|name|] == '(' && r[|name| + 1] == '"';
    assert r[..|name|] == name;
    assert r[|name| + 2..] == rest;
  }

  lemma PayloadDisplayParts(name: string, text: string, lexme: string)
    ensures name + "(" + StrDebug(text) + ")" + " " + lexme
            == name + "(\"" + (Escape(text) + "\")" + " " + lexme)
  {
    assert StrDebug(text) == "\"" + Escape(text) + "\"";
  }

  lemma ReadDisplayPayload(name: string, text: string, lexme: string)
    requires name == "Identifer" || name == "String"
    ensures var r := name + "(" + StrDebug(text) + ")" + " " + lexme;
            ReadDisplay(r) == Some((if name == "Identifer" then Identifer(text) else String(text), lexme))
  {
    var rest := Escape(text) + "\")" + " " + lexme;
    PayloadDisplayParts(name, text, lexme);
    ReadDisplayOfPayload(name, rest);
    ReadPayloadOfDebug(text, lexme);
  }

  /** A name without space or parenthesis, a space and a lexeme read back
      as the lexeme after that name. */
  lemma ReadDisplayOfUnit(name: string, lexme: string)
    requires ' ' !in name && '(' !in name
    ensures ReadDisplay(name + " " + lexme) == ReadUnitKind(name, lexme)
  {
    var r := name + (" " + lexme);
    assert name + " " + lexme == r;
    NameLengthOf(name, " " + lexme);
    assert r[..|name|] == name;
    assert r[|name| + 1..] == lexme;
  }

  lemma DisplayRoundTripUnit(k: TokenType, lexme: string, floatDebug: F64 -> string)
    requires !k.HasPayload()
    ensures ReadDisplay(KindDebug(k, floatDebug) + " " + lexme) == Some((k, lexme))
  {
    assert KindDebug(k, floatDebug) == UnitName(k);
    UnitNameReadsBack(k);
    ReadDisplayOfUnit(UnitName(k), lexme);
  }

  lemma DisplayOfPayload(t: Token, floatDebug: F64 -> string)
    requires t.tokenType.Identifer? || t.tokenType.String?
    ensures t.tokenType.Identifer? ==>
              (Display(t, floatDebug) == "Identifer" + "(" + StrDebug(t.tokenType.name) + ")" + " " + t.lexme)
    ensures t.tokenType.String? ==>
              (Display(t, floatDebug) == "String" + "(" + StrDebug(t.tokenType.text) + ")" + " " + t.lexme)
  {
  }

  /** A displayed token reads back as its kind and lexeme (all kinds except
      `Number`), so the display loses nothing of the kind and the lexeme;
      the line is not printed. */
  lemma DisplayRoundTrip(t: Token, floatDebug: F64 -> string)
    requires !t.tokenType.Number?
    ensures ReadDisplay(Display(t, floatDebug)) == Some((t.tokenType, t.lexme))
  {
    var k := t.tokenType;
    if k.Identifer? {
      DisplayOfPayload(t, floatDebug);
      ReadDisplayPayload("Identifer", k.name, t.lexme);
    } else if k.String? {
      DisplayOfPayload(t, floatDebug);
      ReadDisplayPayload("String", k.text, t.lexme);
    } else {
      DisplayRoundTripUnit(k, t.lexme, floatDebug);
    }
  }

  /** Display is injective on tokens whose kinds carry no float: equal
      displays mean equal kinds and equal lexemes. */
  lemma DisplayInjective(t1: Token, t2: Token, floatDebug: F64 -> string)
    requires !t1.tokenType.Number? && !t2.tokenType.Number?
    requires Display(t1, floatDebug) == Display(t2, floatDebug)
    ensures t1.tokenType == t2.tokenType && t1.lexme == t2.lexme
  {
    DisplayRoundTrip(t1, floatDebug);
    DisplayRoundTrip(t2, floatDebug);
  }

  /** A token with an empty lexeme, such as `Eof`, displays as its kind's
      `Debug` followed by the single separating space; for a kind without
      data that space is the only one. */
  lemma EmptyLexemeDisplay(t: Token, floatDebug: F64 -> string)
    requires t.lexme == []
    ensures var d := Display(t, floatDebug);
            |d| > 0 && d[|d| - 1] == ' ' && (!t.tokenType.HasPayload() ==> ' ' !in d[..|d| - 1])
  {
    var d := Display(t, floatDebug);
    assert d[..|d| - 1] == KindDebug(t.tokenType, floatDebug);
    UnitNameReadsBack(t.tokenType);
  }
}
