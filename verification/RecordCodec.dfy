/** A concrete record encoding that meets every demand the log model makes of JSON.stringify and JSON.parse:
    quoted, escaped fields between braces. It shows those demands can be met together. */
module RecordCodec {
  import opened Wrappers
  import opened HashChain
  import opened EventLog
  import opened Decimal
  import Merkle

  /** Escapes quotes, backslashes and newlines, as JSON does. */
  function EscapeChar(c: char): string {
    match c
    case '"' => "\\\""
    case '\\' => "\\\\"
    case '\n' => "\\n"
    case _ => [c]
  }

  function Escape(s: string): string {
    if s == "" then "" else EscapeChar(s[0]) + Escape(s[1..])
  }

  function Quote(s: string): string {
    Escape(s) + "\""
  }

  /** Reads an escaped string up to its closing quote; the rest is returned. */
  function Unquote(t: string): Option<(string, string)> {
    if t == "" then None
    else if t[0] == '"' then Some(("", t[1..]))
    else if t[0] == '\\' then
      if |t| == 1 then None
      else
        match Unquote(t[2..])
        case None => None
        case Some((s, rest)) => Some(([if t[1] == 'n' then '\n' else t[1]] + s, rest))
    else
      match Unquote(t[1..])
      case None => None
      case Some((s, rest)) => Some(([t[0]] + s, rest))
  }

  /** One escaped character is read back, whatever follows. */
  lemma UnquoteChar(c: char, u: string)
    ensures Unquote(EscapeChar(c) + u) == match Unquote(u) case None => None case Some((s, rest)) => Some(([c] + s, rest))
  {
    var t := EscapeChar(c) + u;
    if |EscapeChar(c)| == 2 {
      assert t[2..] == u;
    } else {
      assert t[1..] == u;
    }
  }

  lemma {:induction false} UnquoteQuote(s: string, rest: string)
    ensures Unquote(Quote(s) + rest) == Some((s, rest))
  {
    if s == "" {
      assert Quote(s) + rest == "\"" + rest;
    } else {
      hide Unquote, EscapeChar;
      UnquoteQuote(s[1..], rest);
      UnquoteChar(s[0], Quote(s[1..]) + rest);
      assert Quote(s) + rest == EscapeChar(s[0]) + (Quote(s[1..]) + rest);
      assert s == [s[0]] + s[1..];
    }
  }

  lemma {:induction false} QuoteIsOneLine(s: string)
    ensures '\n' !in Quote(s)
  {
    if s != "" {
      QuoteIsOneLine(s[1..]);
    }
  }

  function QuoteAll(fields: seq<string>): string {
    if fields == [] then "" else Quote(fields[0]) + QuoteAll(fields[1..])
  }

  function UnquoteAll(t: string, n: nat): Option<(seq<string>, string)>
    decreases n
  {
    if n == 0 then Some(([], t))
    else
      match Unquote(t)
      case None => None
      case Some((s, rest)) =>
        match UnquoteAll(rest, n - 1)
        case None => None
        case Some((fields, last)) => Some(([s] + fields, last))
  }

  lemma {:induction false} UnquoteQuoteAll(fields: seq<string>, rest: string)
    ensures UnquoteAll(QuoteAll(fields) + rest, |fields|) == Some((fields, rest))
    ensures '\n' !in QuoteAll(fields)
  {
    hide Quote, Unquote;
    if fields == [] {
      assert QuoteAll(fields) + rest == rest;
    } else {
      UnquoteQuoteAll(fields[1..], rest);
      UnquoteQuote(fields[0], QuoteAll(fields[1..]) + rest);
      QuoteIsOneLine(fields[0]);
      assert fields == [fields[0]] + fields[1..];
      assert QuoteAll(fields) + rest == Quote(fields[0]) + (QuoteAll(fields[1..]) + rest);
    }
  }

  // ---------------------------------------------------------------- records

  function IntText(n: int): string {
    if n < 0 then "-" + Show(-n) else Show(n)
  }

  function IntOf(s: string): int {
    if s != "" && s[0] == '-' && AllDigits(s[1..]) then 0 - Value(s[1..])
    else if AllDigits(s) then Value(s)
    else 0
  }

  lemma IntRoundTrip(n: int)
    ensures IntOf(IntText(n)) == n
  {
    ShowValue(if n < 0 then -n else n);
  }

  function OptionText(o: Option<string>): string {
    match o case None => "" case Some(s) => "+" + s
  }

  function OptionOf(s: string): Option<string> {
    if s == "" then None else Some(s[1..])
  }

  function Fields(r: Stored): (fields: seq<string>)
    ensures |fields| == 9
  {
    [r.content.eventType, r.content.metadata, r.content.payload, r.content.streamId, IntText(r.content.version),
     IntText(r.content.globalPosition), r.content.appendedAt, OptionText(r.hash), OptionText(r.previousHash)]
  }

  function FromFields(f: seq<string>): Stored
    requires |f| == 9
  {
    Stored(Content(f[0], f[1], f[2], f[3], IntOf(f[4]), IntOf(f[5]), f[6]), OptionOf(f[7]), OptionOf(f[8]))
  }

  function Encode(r: Stored): string {
    QuoteAll(Fields(r)) + "}"
  }

  /** A record, whatever text follows it. */
  function Parse(t: string): Option<Stored> {
    match UnquoteAll(t, 9)
    case None => None
    case Some((fields, _)) => if |fields| == 9 then Some(FromFields(fields)) else None
  }

  /** Decoding is strict: the text must be exactly what some record encodes to. */
  function Decode(t: string): Option<Stored> {
    match Parse(t)
    case None => None
    case Some(r) => if Encode(r) == t then Some(r) else None
  }

  lemma ParseEncode(r: Stored, rest: string)
    ensures Parse(Encode(r) + rest) == Some(r)
    ensures '\n' !in Encode(r)
  {
    hide UnquoteAll, QuoteAll, IntText, IntOf;
    UnquoteQuoteAll(Fields(r), "}" + rest);
    assert Encode(r) + rest == QuoteAll(Fields(r)) + ("}" + rest);
    IntRoundTrip(r.content.version);
    IntRoundTrip(r.content.globalPosition);
  }

  function TheCodec(): Codec {
    Codec(Encode, Decode)
  }

  /** The demands on the codec can be met: records are one line each, read back, and torn records do not. */
  lemma CodecIsLawful()
    ensures LawfulCodec(TheCodec())
  {
    hide Parse;
    var c := TheCodec();
    forall r
      ensures '\n' !in c.encode(r) && c.decode(c.encode(r)) == Some(r)
    {
      ParseEncode(r, "");
      assert Encode(r) + "" == Encode(r);
    }
    forall r, n | 0 <= n < |c.encode(r)|
      ensures c.decode(c.encode(r)[..n]) == None
    {
      TornRecord(r, n);
    }
    forall r
      ensures Encode(r) != ""
    {
      assert Encode(r)[|Encode(r)| - 1] == '}';
    }
  }

  lemma TornRecord(r: Stored, n: nat)
    requires n < |Encode(r)|
    ensures Decode(Encode(r)[..n]) == None
  {
    hide Parse, Encode;
    forall q
      ensures Encode(q) != Encode(r)[..n]
    {
      NoRecordIsTorn(q, r, n);
    }
  }

  lemma NoRecordIsTorn(q: Stored, r: Stored, n: nat)
    requires n < |Encode(r)|
    ensures Encode(q) != Encode(r)[..n]
  {
    hide Parse, Encode;
    var tail := Encode(r)[n..];
    ParseEncode(q, tail);
    ParseEncode(r, "");
    assert Encode(r) + "" == Encode(r) && Encode(r)[..n] + tail == Encode(r);
    assert Encode(q) == Encode(r)[..n] ==> q == r;
  }

  /** The demands on canonicalization can be met. */
  lemma LawfulSchemeExists(sha: string -> Merkle.Digest)
    ensures Lawful(Scheme((c: Content) => Encode(Stored(c, None, None)), sha))
  {
    hide Parse;
    forall c: Content, d: Content | Encode(Stored(c, None, None)) == Encode(Stored(d, None, None))
      ensures c == d
    {
      ParseEncode(Stored(c, None, None), "");
      ParseEncode(Stored(d, None, None), "");
    }
  }
}
