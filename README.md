# loxide lexer stub and token model in Dafny

This project models the two pieces of the `loxide` Lox interpreter that hold
logic: the whitespace lexer stub and the token model.

- `lexer.dfy` (module `Lexer`): a `Lexer` holds a source string.
  `parse_tokens` returns the maximal runs of non-whitespace characters in
  that string, in order, as `str::split_ascii_whitespace` does. ASCII
  whitespace is Rust's set: space, tab, line feed, form feed and carriage
  return. Vertical tab is not included. The reference definition
  `SplitAsciiWhitespace` follows the standard library's recipe: split at
  every whitespace character, then drop the empty fields. `ParseTokens` is
  an index-based scan. It returns each piece as a `Span` (start and end
  index) of the source. It is proved to give exactly the reference pieces.
  The spans are non-empty, whitespace-free, maximal, in order, and cover
  every non-whitespace character (`IsSplitting`). `SplittingUnique` shows
  that only one sequence of spans has these properties.
- `tokens.dfy` (module `Tokens`): the closed `TokenType` sum type. It has
  the eleven single-character tokens, the eight one-or-two-character
  operators, `Identifer`, `String` and `Number` (the only variants with
  data), sixteen keywords and `Eof`. It also has the `Token` record
  (kind, lexeme, line), `Token::new`, and `Display`. `Display` prints the
  kind's derived `Debug` form, one space, then the lexeme. The derived
  `Debug` is modelled: a variant's name, and for `Identifer` and `String`
  the quoted, escaped text in parentheses. `ReadDisplay` parses a displayed
  token back. `DisplayRoundTrip` proves that it recovers the kind and the
  lexeme for every kind except `Number`. The line is not printed.

The repository's only lexer is the whitespace splitter in src/lexer.rs; it
does no operator, literal or keyword scanning and counts no lines. The token
kinds keep the code's sixteen separate keyword variants and its spelling
`Identifer`.

The data model:

- `Lexer.Lexer` (src/lexer.rs:1-3): the lexer, holding its source string.
- `Lexer.Span`: the `&str` piece `parse_tokens` returns, as the start and
  end index of its characters in the source.
- `Tokens.TokenType` (src/tokens.rs:2-51): the thirty-nine token kinds.
  `Identifer` and `String` carry a string, `Number` carries an `F64`.
- `Tokens.Token` (src/tokens.rs:54-58): a kind, its lexeme, and its line
  as a `Usize`.

## Model

| member | source | states |
|---|---|---|
| `Lexer.New` | src/lexer.rs:6-10 | the lexer keeps the source exactly as given |
| `Lexer.ParseTokens` | src/lexer.rs:12-15 | the returned spans split the source (`IsSplitting`): each is a non-empty, whitespace-free sub-range whose neighbours are whitespace or the string boundary, they are in increasing order without overlap, and every non-whitespace character lies in one; the pieces they borrow equal `split_ascii_whitespace` of the source |
| `Lexer.SplittingUnique` | src/lexer.rs:12-15 | at most one span sequence splits a given source, so `parse_tokens` on an unchanged lexer gives equal results each time |
| `Lexer.SplitAsciiWhitespace` | src/lexer.rs:13 | `split_ascii_whitespace`, defined as split at each whitespace character then drop empty fields: every piece is non-empty and contains no ASCII whitespace, and the pieces concatenated give the source with every whitespace character removed |
| `Lexer.SplitEmptyIff` | src/lexer.rs:13 | the result is empty exactly when the source is empty or all whitespace |
| `Lexer.SplitSkipsWhitespace` | src/lexer.rs:13 | a leading whitespace character adds no piece |
| `Lexer.SplitTakesRun` | src/lexer.rs:13 | a maximal leading run of non-whitespace characters is the first piece, followed by the pieces of the rest |
| `Lexer.Fields` | src/lexer.rs:13 | splitting at every whitespace character gives one field more than there are whitespace characters |
| `Tokens.KindsAreClosed` | src/tokens.rs:2-51 | every kind is exactly one of: single-character token, one-or-two-character operator, payload variant (`Identifer`, `String`, `Number`), keyword, or `Eof` |
| `Tokens.UnitNameReadsBack` | src/tokens.rs:1-51 | the derived `Debug` name of each variant holds no space or parenthesis, and the name of each variant without data identifies that variant |
| `Tokens.NewToken` | src/tokens.rs:61-67 | `Token::new` returns a token whose kind, lexeme and line are the three arguments, unchanged |
| `Tokens.ReadEscapedOfEscape` | src/tokens.rs:72 | reading the `Debug` escaping of a payload string up to its closing quote gives back the string and leaves exactly what follows the quote |
| `Tokens.EscapeChar` | src/tokens.rs:28-29 | the escaping `Debug` applies to each character of an `Identifer` or `String` payload: a character stays as it is exactly when it is neither an ASCII control character, a backslash nor a double quote; every other character becomes an escape of two to six characters starting with a backslash |
| `Tokens.Escape` | src/tokens.rs:28-29 | the escaped text is never shorter than the text, and text with nothing to escape is printed unchanged |
| `Tokens.StrDebug` | src/tokens.rs:28-29 | `Debug` of a payload string opens with a double quote, and reading the escapes after it up to the closing quote gives back exactly the string, with nothing after that quote |
| `Tokens.KindDebug` | src/tokens.rs:1-51 | the derived `Debug` of a kind: the variant's name, then for `Identifer`, `String` and `Number` the payload's `Debug` in parentheses; no contract of its own, its read-back is proved by `Tokens.DisplayRoundTrip` |
| `Tokens.UnitName` | src/tokens.rs:2-51 | the variant names exactly as the Rust enum spells them; no contract of its own, their properties are proved by `Tokens.UnitNameReadsBack` |
| `Tokens.Display` | src/tokens.rs:70-74 | `impl Display for Token`: the kind's `Debug`, one space, then the lexeme; no contract of its own, `Tokens.DisplayRoundTrip` proves it can be read back and `Tokens.DisplayInjective` that it loses nothing of the kind and the lexeme for kinds other than `Number`; the line is not printed |
| `Tokens.EmptyLexemeDisplay` | src/tokens.rs:72 | a token with an empty lexeme, such as `Eof`, displays as its kind's `Debug` followed by the one separating space, and for a kind without data that space is the only space in the display |
| `Tokens.DisplayRoundTrip` | src/tokens.rs:72 | reading a displayed token back gives its kind and its lexeme, for every kind except `Number` |
| `Tokens.DisplayInjective` | src/tokens.rs:72 | two tokens (neither a `Number`) with the same display have the same kind and the same lexeme |

## Left out

- src/main.rs as a whole: argument dispatch and exit code 64, the stdin prompt loop with `:q`/`:quit`, printing to stdout, and path canonicalisation are all I/O.
- `scan_tokens`, which src/main.rs:42 calls, has no definition in `Lexer` (src/lexer.rs:5-16). It is not part of this model. The `loxide` library root that re-exports `Lexer` is not part of this model either.
- Lifetimes and borrowing: the lexer holds its source as a string, and a piece is given by its span. Spans count characters where Rust's `&str` offsets count UTF-8 bytes. ASCII whitespace bytes never occur inside a multi-byte character, so the split is the same.
- The `f64` payload of `Number` is kept as its bit pattern (`F64`). Its `Debug` text is a parameter (`floatDebug`) because float formatting is not modelled.
- Tokens.DisplayRoundTrip: does not cover `Number`, because reading its text back would need a float parser.
- `Tokens.EscapeChar`, `Tokens.Escape`, `Tokens.StrDebug`: the `Debug` escaping of `Identifer` and `String` payloads covers NUL, tab, carriage return, line feed, backslash, double quote and the other ASCII control characters (`\u{..}`). The `\u{..}` escapes Rust also uses for non-ASCII grapheme extenders and non-printable characters are not modelled; the model prints such characters unchanged.
- `Token::line` is a 64-bit `usize` (`Usize`). Nothing in the core does arithmetic on it.
- The derived `Clone` and `Copy` on `TokenType` are not modelled: Dafny datatypes are values.
