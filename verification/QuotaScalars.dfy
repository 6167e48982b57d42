/**
 * platform/okf/generate_quota_enforcement.py: how a text is written into the template, by Python's repr or by Helm's
 * quote, and when it arrives: what YAML reads from the scalars and keys, and where Helm would see an action.
 */
module QuotaScalars {
  import opened Util
  import opened CelText

  // ---------------------------------------------------------------- writing

  /** The letter that stands for a control character behind a backslash; Go knows more of them than Python. */
  function Letter(c: char, go: bool): Option<char> {
    match c
    case '\n' => Some('n')
    case '\r' => Some('r')
    case '\t' => Some('t')
    case '\U{7}' => if go then Some('a') else None
    case '\U{8}' => if go then Some('b') else None
    case '\U{b}' => if go then Some('v') else None
    case '\U{c}' => if go then Some('f') else None
    case _ => None
  }

  predicate Control(c: char) { c < ' ' || c == '\U{7f}' }

  function HexChar(n: nat): char
    requires n < 16
  {
    if n < 10 then '0' + n as char else 'a' + (n - 10) as char
  }

  /** One character of a text quoted with `q`. */
  function Piece(c: char, q: char, go: bool): string {
    if c == '\\' || c == q then ['\\', c]
    else if Letter(c, go).Some? then ['\\', Letter(c, go).value]
    else if Control(c) then ['\\', 'x', HexChar(c as int / 16), HexChar(c as int % 16)]
    else [c]
  }

  function Escaped(s: string, q: char, go: bool): string {
    if s == "" then "" else Piece(s[0], q, go) + Escaped(s[1..], q, go)
  }

  /** Python's `repr`: double quotes only for a text with a single quote and no double quote. */
  function Repr(s: string): string {
    if '\'' in s && '"' !in s then "\"" + (Escaped(s, '"', false) + "\"") else "'" + (Escaped(s, '\'', false) + "'")
  }

  /** Helm's `quote`. */
  function GoQuote(s: string): string { "\"" + (Escaped(s, '"', true) + "\"") }

  // ---------------------------------------------------------------- reading

  function Put(c: char, o: Option<string>): Option<string> { match o case None => None case Some(s) => Some([c] + s) }

  /** The character a backslash and a letter stand for in a double-quoted scalar. */
  function Unletter(c: char): Option<char> {
    match c
    case 'n' => Some('\n')
    case 'r' => Some('\r')
    case 't' => Some('\t')
    case 'a' => Some('\U{7}')
    case 'b' => Some('\U{8}')
    case 'v' => Some('\U{b}')
    case 'f' => Some('\U{c}')
    case '\\' => Some('\\')
    case '"' => Some('"')
    case _ => None
  }

  /** A double-quoted scalar behind its opening quote, up to the end of the line. */
  function ReadDouble(s: string): Option<string> {
    if s == "" then None
    else if s[0] == '"' then (if |s| == 1 then Some("") else None)
    else if s[0] != '\\' then Put(s[0], ReadDouble(s[1..]))
    else if |s| < 2 then None
    else if s[1] == 'x' then
      if |s| >= 4 && HexDigit(s[2]).Some? && HexDigit(s[3]).Some? then
        Put((16 * HexDigit(s[2]).value + HexDigit(s[3]).value) as char, ReadDouble(s[4..]))
      else None
    else match Unletter(s[1])
      case None => None
      case Some(c) => Put(c, ReadDouble(s[2..]))
  }

  /** A single-quoted scalar behind its opening quote, up to the end of the line. */
  function ReadSingle(s: string): Option<string> {
    if s == "" then None
    else if s[0] != '\'' then Put(s[0], ReadSingle(s[1..]))
    else if |s| == 1 then Some("")
    else if s[1] == '\'' then Put('\'', ReadSingle(s[2..]))
    else None
  }

  function ReadScalar(s: string): Option<string> {
    if s == "" then None
    else if s[0] == '"' then ReadDouble(s[1..])
    else if s[0] == '\'' then ReadSingle(s[1..])
    else None
  }

  /** A Helm action opens somewhere in the text. */
  predicate HasAction(s: string) { |s| >= 2 && ((s[0] == '{' && s[1] == '{') || HasAction(s[1..])) }

  /** A scalar of the rendered document: written in the template, or filled in by an action of it. */
  datatype Scalar = Written(text: string) | Filled(text: string)

  /** The text that arrives; None when Helm or YAML make something else of it. */
  function Delivered(s: Scalar): Option<string> {
    match s
    case Written(t) => if HasAction(t) then None else ReadScalar(t)
    case Filled(t) => ReadScalar(t)
  }

  // ---------------------------------------------------------------- quoting and reading back

  lemma HexCharReads(n: nat)
    requires n < 16
    ensures HexDigit(HexChar(n)) == Some(n)
  {
  }

  lemma PieceReads(c: char, go: bool, rest: string)
    ensures ReadDouble(Piece(c, '"', go) + rest) == Put(c, ReadDouble(rest))
  {
    var p := Piece(c, '"', go);
    var s := p + rest;
    if c == '\\' || c == '"' || Letter(c, go).Some? {
      assert s[0] == '\\' && s[1] == p[1] && s[2..] == rest;
    } else if Control(c) {
      HexCharReads(c as int / 16);
      HexCharReads(c as int % 16);
      assert s[0] == '\\' && s[1] == 'x' && s[2] == p[2] && s[3] == p[3] && s[4..] == rest;
    } else {
      assert s[0] == c && s[1..] == rest;
    }
  }

  lemma {:induction false} EscapedReads(s: string, go: bool)
    ensures ReadDouble(Escaped(s, '"', go) + "\"") == Some(s)
  {
    if s == "" {
      assert Escaped(s, '"', go) + "\"" == "\"";
    } else {
      var rest := Escaped(s[1..], '"', go);
      EscapedReads(s[1..], go);
      PieceReads(s[0], go, rest + "\"");
      Assoc(Piece(s[0], '"', go), rest, "\"");
      assert [s[0]] + s[1..] == s;
    }
  }

  /** Helm's quote always arrives. */
  lemma QuoteArrives(s: string)
    ensures Delivered(Filled(GoQuote(s))) == Some(s)
  {
    EscapedReads(s, true);
    assert GoQuote(s)[1..] == Escaped(s, '"', true) + "\"";
  }

  lemma {:induction false} NoSingleReads(p: string, rest: string)
    requires '\'' !in p && ReadSingle(rest) == None
    ensures ReadSingle(p + rest) == None
  {
    if p == "" {
      assert p + rest == rest;
    } else {
      assert (p + rest)[0] == p[0] && (p + rest)[1..] == p[1..] + rest;
      NoSingleReads(p[1..], rest);
    }
  }

  lemma PieceNoSingle(c: char)
    requires c != '\''
    ensures '\'' !in Piece(c, '\'', false)
  {
    if Control(c) {
      HexCharReads(c as int / 16);
      HexCharReads(c as int % 16);
    }
  }

  /** Behind a backslash a single quote ends a single-quoted scalar, or doubles its last quote. */
  lemma {:induction false} SingleIsLost(s: string)
    requires '\'' in s
    ensures ReadSingle(Escaped(s, '\'', false) + "'") == None
  {
    var tail := Escaped(s[1..], '\'', false) + "'";
    Assoc(Piece(s[0], '\'', false), Escaped(s[1..], '\'', false), "'");
    if s[0] == '\'' {
      var t := "\\'" + tail;
      assert t[1..] == "'" + tail && t[1..][1] == tail[0] && t[1..][2..] == tail[1..];
      if s[1..] == "" {
        assert tail == "'" && tail[1..] == "";
      } else {
        assert tail[0] == Piece(s[1], '\'', false)[0] != '\'';
      }
      assert ReadSingle(t[1..]) == None;
      assert Piece(s[0], '\'', false) == "\\'";
    } else {
      SingleIsLost(s[1..]);
      PieceNoSingle(s[0]);
      NoSingleReads(Piece(s[0], '\'', false), tail);
    }
  }

  /** The `repr` of a text with a single quote in it is a scalar for that text when the text has no double quote, and
      no scalar when it has one. */
  lemma ReprReadsIff(s: string)
    requires '\'' in s
    ensures ReadScalar(Repr(s)) == if '"' in s then None else Some(s)
  {
    if '"' !in s {
      EscapedReads(s, false);
      assert Repr(s)[1..] == Escaped(s, '"', false) + "\"";
    } else {
      SingleIsLost(s);
      assert Repr(s)[1..] == Escaped(s, '\'', false) + "'";
    }
  }

  // ---------------------------------------------------------------- actions

  lemma {:induction false} ActionBehind(pre: string, s: string)
    requires '{' !in pre
    ensures HasAction(pre + s) <==> HasAction(s)
  {
    if pre == "" {
      assert pre + s == s;
    } else {
      assert (pre + s)[0] == pre[0] && (pre + s)[1..] == pre[1..] + s;
      ActionBehind(pre[1..], s);
    }
  }

  lemma {:induction false} ActionBefore(s: string, post: string)
    requires '{' !in post
    ensures HasAction(s + post) <==> HasAction(s)
  {
    if s == "" {
      assert s + post == post && post + "" == post;
      ActionBehind(post, "");
    } else {
      assert (s + post)[0] == s[0] && (s + post)[1..] == s[1..] + post;
      if |s| == 1 { assert post != "" ==> post[0] in post; }
      ActionBefore(s[1..], post);
    }
  }

  lemma {:induction false} EscapedAction(s: string, q: char, go: bool)
    requires Quote(q)
    ensures HasAction(Escaped(s, q, go)) <==> HasAction(s)
  {
    if s != "" {
      var p, rest := Piece(s[0], q, go), Escaped(s[1..], q, go);
      EscapedAction(s[1..], q, go);
      if s[0] == '{' {
        assert (p + rest)[0] == '{' && (p + rest)[1..] == rest;
        if |s| > 1 { assert rest[0] == Piece(s[1], q, go)[0]; }
      } else {
        PieceQuiet(s[0], q, go);
        ActionBehind(p, rest);
      }
    }
  }

  lemma PieceQuiet(c: char, q: char, go: bool)
    requires c != '{'
    ensures '{' !in Piece(c, q, go)
  {
    if Control(c) {
      HexCharReads(c as int / 16);
      HexCharReads(c as int % 16);
    }
  }

  lemma ReprAction(s: string)
    ensures HasAction(Repr(s)) <==> HasAction(s)
  {
    var q := if '\'' in s && '"' !in s then '"' else '\'';
    EscapedAction(s, q, false);
    ActionBefore(Escaped(s, q, false), [q]);
    ActionBehind([q], Escaped(s, q, false) + [q]);
  }

  /** A text with a single quote in it that is written as Python's repr arrives exactly when it has no double quote
      and opens no action. */
  lemma ReprArrivesIff(s: string)
    requires '\'' in s
    ensures Delivered(Written(Repr(s))) == if '"' in s || HasAction(s) then None else Some(s)
  {
    ReprReadsIff(s);
    ReprAction(s);
  }

  // ---------------------------------------------------------------- keys

  predicate KeyBlank(c: char) { c == ' ' || c == '\t' }

  /** Characters no plain scalar holds on one line: control characters but the tab, the breaks beyond ASCII, the byte
      order mark and what is no character. */
  predicate KeyStop(c: char) {
    (Control(c) && c != '\t') || '\U{80}' <= c <= '\U{9f}' || '\U{2028}' <= c <= '\U{2029}'
    || c == '\U{FEFF}' || '\U{FFFE}' <= c <= '\U{FFFF}'
  }

  /** How far the colon of a key on one line may be from its beginning. */
  const KEY_REACH: nat := 1024

  /** What a plain scalar cannot begin with, wherever it stands. */
  predicate Indicator(c: char) { c in ",[]{}#&*!|>'\"%@`" }

  predicate KeyStart(s: string) {
    s != "" && !KeyBlank(s[0]) && !Indicator(s[0])
    && (s[0] in "-?:" ==> |s| > 1 && !KeyBlank(s[1]))
  }

  /** The length of the plain key a line begins with: up to a colon before a blank or the end. A comment ends it
      before it is one. */
  function KeyLen(s: string): Option<nat> {
    if s == "" || KeyStop(s[0]) then None
    else if s[0] == ':' && (|s| == 1 || KeyBlank(s[1])) then Some(0)
    else if KeyBlank(s[0]) && |s| > 1 && s[1] == '#' then None
    else match KeyLen(s[1..]) case None => None case Some(n) => Some(n + 1)
  }

  /** The key of a line that holds nothing but a key and its colon. */
  function ReadKey(line: string): Option<string> {
    if !KeyStart(line) then None
    else match KeyLen(line)
      case Some(n) => if n + 1 == |line| && n <= KEY_REACH then Some(TrimEnd(line[..n])) else None
      case None => None
  }

  function TrimEnd(s: string): string { if s != "" && KeyBlank(s[|s| - 1]) then TrimEnd(s[..|s| - 1]) else s }

  /** Two neighbours in a key that end it. */
  predicate KeyBreak(c: char, d: char) { (c == ':' && KeyBlank(d)) || (KeyBlank(c) && d == '#') }

  predicate KeyBody(k: string) {
    (forall i :: 0 <= i < |k| ==> !KeyStop(k[i])) && (forall i :: 0 <= i < |k| - 1 ==> !KeyBreak(k[i], k[i + 1]))
  }

  /** A key that is written as it is. */
  predicate KeySafe(k: string) {
    0 < |k| <= KEY_REACH && KeyStart(k + ":") && !KeyBlank(k[|k| - 1]) && KeyBody(k)
  }

  lemma {:induction false} KeyLenIff(k: string)
    ensures KeyLen(k + ":") == Some(|k|) <==> KeyBody(k)
  {
    var s := k + ":";
    if k == "" {
      assert s == ":";
    } else {
      var t := k[1..];
      assert s[1..] == t + ":" && s[0] == k[0] && s[1] == (if t == "" then ':' else t[0]);
      KeyLenIff(t);
      KeyBodyStep(k);
    }
  }

  lemma KeyBodyStep(k: string)
    requires k != ""
    ensures KeyBody(k) <==> (KeyBody(k[1..]) && !KeyStop(k[0]) && (|k| > 1 ==> !KeyBreak(k[0], k[1])))
  {
    var t := k[1..];
    assert forall i | 0 <= i < |t| :: t[i] == k[i + 1];
    if KeyBody(t) && !KeyStop(k[0]) && (|k| > 1 ==> !KeyBreak(k[0], k[1])) {
      forall i | 0 <= i < |k| ensures !KeyStop(k[i]) { if i > 0 { assert k[i] == t[i - 1]; } }
      forall i | 0 <= i < |k| - 1 ensures !KeyBreak(k[i], k[i + 1]) {
        if i > 0 { assert k[i] == t[i - 1] && k[i + 1] == t[i]; }
      }
    }
  }

  /** A key line is read back as its key exactly when the key is safe. */
  lemma KeyReadsIff(k: string)
    ensures ReadKey(k + ":") == Some(k) <==> KeySafe(k)
  {
    KeyLenIff(k);
    assert (k + ":")[..|k|] == k;
    if k != "" && KeyBlank(k[|k| - 1]) { TrimShortens(k); }
  }

  lemma {:induction false} TrimShortens(s: string)
    ensures |TrimEnd(s)| <= |s|
    ensures s != "" && KeyBlank(s[|s| - 1]) ==> |TrimEnd(s)| < |s|
  {
    if s != "" { TrimShortens(s[..|s| - 1]); }
  }
}
