/** The two tokenizers for CHECK clauses and the texts they read back exactly. */
module CheckLexer {
  import opened Prelude

  predicate IsSpace(c: char) {
    c == ' ' || c == '\t' || c == '\n' || c == '\r' || c as int == 0x0C
  }

  predicate IsAlpha(c: char) {
    'a' <= c <= 'z' || 'A' <= c <= 'Z'
  }

  predicate IsDigit(c: char) {
    '0' <= c <= '9'
  }

  predicate IsHexDigit(c: char) {
    IsDigit(c) || 'a' <= c <= 'f' || 'A' <= c <= 'F'
  }

  predicate IsWordStart(c: char) {
    IsAlpha(c) || c == '_'
  }

  predicate IsWordChar(c: char) {
    IsAlpha(c) || IsDigit(c) || c == '_'
  }

  predicate IsIdentifier(s: string) {
    s != "" && IsWordStart(s[0]) && forall c | c in s :: IsWordChar(c)
  }

  function LowerChar(c: char): char {
    if 'A' <= c <= 'Z' then c + 32 as char else c
  }

  function Lower(s: string): (r: string)
    ensures |r| == |s|
  {
    seq(|s|, i requires 0 <= i < |s| => LowerChar(s[i]))
  }

  /** A lower-case identifier. */
  predicate IsName(s: string) {
    IsIdentifier(s) && Lower(s) == s
  }

  /** The characters a tokenizer loop reads on through. */
  datatype Class = WordClass | DigitClass | HexClass | NotTick

  predicate InClass(c: char, k: Class) {
    match k
    case WordClass => IsWordChar(c)
    case DigitClass => IsDigit(c)
    case HexClass => IsHexDigit(c)
    case NotTick => c != '`'
  }

  /** How many characters at the start of s are in the class. */
  function Span(s: string, k: Class): (n: nat)
    ensures n <= |s|
    ensures forall i | 0 <= i < n :: InClass(s[i], k)
    ensures n < |s| ==> !InClass(s[n], k)
  {
    if s == "" || !InClass(s[0], k) then 0 else 1 + Span(s[1..], k)
  }

  datatype Token =
    | Ident(text: string)
    | Str(text: string)
    | Hex(text: string)
    | Num(text: string)
    | Op(text: string)
    | LParen | RParen | Comma

  predicate IsComparison(op: string) {
    op == "=" || op == ">=" || op == "<=" || op == ">" || op == "<"
  }

  predicate IsOpChar(c: char) {
    c == '=' || c == '>' || c == '<'
  }

  /** The rest of a quoted literal after its opening quote: its value and length. */
  function LexQuote(s: string): (r: Option<(string, nat)>)
    ensures r.Some? ==> 1 <= r.value.1 <= |s|
  {
    if s == "" then None
    else if s[0] == '\'' then
      if |s| > 1 && s[1] == '\'' then
        var rest := LexQuote(s[2..]);
        if rest.None? then None else Some(("'" + rest.value.0, 2 + rest.value.1))
      else Some(("", 1))
    else if (s[0] as int) < 0x20 || s[0] as int > 0x7E || s[0] == '\\' then None
    else
      var rest := LexQuote(s[1..]);
      if rest.None? then None else Some(([s[0]] + rest.value.0, 1 + rest.value.1))
  }

  function LexTicked(s: string): (r: Option<(string, nat)>)
    requires s != ""
    ensures r.Some? ==> 1 <= r.value.1 <= |s|
  {
    var n := Span(s[1..], NotTick);
    if 1 + n == |s| || !IsIdentifier(s[1..1 + n]) then None else Some((Lower(s[1..1 + n]), n + 2))
  }

  /** Hex digits from the third character on, closed by a quote or not. */
  function LexHex(s: string, quoted: bool): (r: Option<(Token, nat)>)
    requires |s| >= 2
    ensures r.Some? ==> 1 <= r.value.1 <= |s|
  {
    var n := Span(s[2..], HexClass);
    if n == 0 || n % 2 != 0 || (quoted && (2 + n >= |s| || s[2 + n] != '\'')) then None
    else Some((Hex(Lower(s[2..2 + n])), if quoted then n + 3 else n + 2))
  }

  /** The characters of a word or a number, whose first one is given. */
  function LexRun(s: string, k: Class): (n: nat)
    requires s != ""
    ensures 1 <= n <= |s|
  {
    1 + Span(s[1..], k)
  }

  function LexOp(s: string): (r: Option<(string, nat)>)
    requires s != ""
    ensures r.Some? ==> 1 <= r.value.1 <= |s|
  {
    var n := if |s| > 1 && s[1] == '=' then 2 else 1;
    if IsComparison(s[..n]) then Some((s[..n], n)) else None
  }

  /** The first token of s, which starts with no space, and its length. */
  function LexOne(s: string): (r: Option<(Token, nat)>)
    requires s != ""
    ensures r.Some? ==> 1 <= r.value.1 <= |s|
  {
    var c := s[0];
    if c == '`' then
      var t := LexTicked(s);
      if t.None? then None else Some((Ident(t.value.0), t.value.1))
    else if c == '\'' then
      var q := LexQuote(s[1..]);
      if q.None? then None else Some((Str(q.value.0), 1 + q.value.1))
    else if c == '(' then Some((LParen, 1))
    else if c == ')' then Some((RParen, 1))
    else if c == ',' then Some((Comma, 1))
    else if (c == 'x' || c == 'X') && |s| > 1 && s[1] == '\'' then LexHex(s, true)
    else if c == '0' && |s| > 2 && (s[1] == 'x' || s[1] == 'X') then LexHex(s, false)
    else if IsWordStart(c) then Some((Ident(Lower(s[..LexRun(s, WordClass)])), LexRun(s, WordClass)))
    else if IsDigit(c) then Some((Num(s[..LexRun(s, DigitClass)]), LexRun(s, DigitClass)))
    else if IsOpChar(c) then
      var op := LexOp(s);
      if op.None? then None else Some((Op(op.value.0), op.value.1))
    else None
  }

  function Lex(s: string): Option<seq<Token>>
    decreases |s|
  {
    if s == "" then Some([])
    else if IsSpace(s[0]) then Lex(s[1..])
    else
      var first := LexOne(s);
      if first.None? then None else
      var rest := Lex(s[first.value.1..]);
      if rest.None? then None else Some([first.value.0] + rest.value)
  }

  /** strings.ReplaceAll of a backslash and a quote by the quote. */
  function Unescape(s: string): (r: string)
    decreases |s|
  {
    if s == "" then ""
    else if |s| > 1 && s[0] == '\\' && s[1] == '\'' then "'" + Unescape(s[2..])
    else [s[0]] + Unescape(s[1..])
  }

  // ----- the safety tokenizer, whose tokens are bare strings -----

  function LexOneBare(s: string): (r: Option<(string, nat)>)
    requires s != ""
    ensures r.Some? ==> 1 <= r.value.1 <= |s|
  {
    var c := s[0];
    if c == '`' then LexTicked(s)
    else if IsWordStart(c) then Some((Lower(s[..LexRun(s, WordClass)]), LexRun(s, WordClass)))
    else if IsDigit(c) then Some((s[..LexRun(s, DigitClass)], LexRun(s, DigitClass)))
    else if c == '(' || c == ')' || c == ',' then Some((s[..1], 1))
    else if IsOpChar(c) then LexOp(s)
    else None
  }

  function LexBare(s: string): Option<seq<string>>
    decreases |s|
  {
    if s == "" then Some([])
    else if IsSpace(s[0]) then LexBare(s[1..])
    else
      var first := LexOneBare(s);
      if first.None? then None else
      var rest := LexBare(s[first.value.1..]);
      if rest.None? then None else Some([first.value.0] + rest.value)
  }
}
