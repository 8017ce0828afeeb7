/** Strings as the services exchange them: decimal counts, blank-separated commands and
    NUL-terminated messages sent one byte at a time through a pipe.
    Models the text helpers of HierarchicalServiceManagementSystem/service.c. */
module Text {
  const NUL := '\0'
  const BUFFER_LEN := 128       // every command, message and reply buffer
  const MAX_SERVICE_NAME_LEN := 16

  // ----- decimal numbers ------------------------------------------------------------------

  predicate IsDigit(c: char) { '0' <= c <= '9' }

  function DigitChar(d: nat): (c: char)
    requires d < 10
    ensures IsDigit(c) && c as int - '0' as int == d
  {
    ('0' as int + d) as char
  }

  function Digits(n: nat): string {
    if n < 10 then [DigitChar(n)] else Digits(n / 10) + [DigitChar(n % 10)]
  }

  /** `snprintf("%d")` */
  function IntToStr(n: int): string {
    if n < 0 then "-" + Digits(-n) else Digits(n)
  }

  function ParseDigits(s: string, acc: nat): nat {
    if s == "" || !IsDigit(s[0]) then acc
    else ParseDigits(s[1..], 10 * acc + (s[0] as int - '0' as int))
  }

  function SkipBlanks(s: string): string {
    if s != "" && s[0] in {' ', '\t', '\n', '\r'} then SkipBlanks(s[1..]) else s
  }

  /** `atoi`: blanks, an optional sign, then as many digits as there are. */
  function Atoi(s: string): int {
    var t := SkipBlanks(s);
    if t != "" && t[0] == '-' then 0 - ParseDigits(t[1..], 0)
    else if t != "" && t[0] == '+' then ParseDigits(t[1..], 0)
    else ParseDigits(t, 0)
  }

  lemma {:induction false} ParseDigitsAppend(s: string, rest: string, acc: nat)
    requires forall i :: 0 <= i < |s| ==> IsDigit(s[i])
    ensures ParseDigits(s + rest, acc) == ParseDigits(rest, ParseDigits(s, acc))
    decreases |s|
  {
    if s == "" {
      assert s + rest == rest;
    } else {
      assert (s + rest)[1..] == s[1..] + rest;
      ParseDigitsAppend(s[1..], rest, 10 * acc + (s[0] as int - '0' as int));
    }
  }

  lemma {:induction false} DigitsParse(n: nat, rest: string)
    requires rest == "" || !IsDigit(rest[0])
    ensures |Digits(n)| > 0 && forall i :: 0 <= i < |Digits(n)| ==> IsDigit(Digits(n)[i])
    ensures ParseDigits(Digits(n) + rest, 0) == n
    decreases n
  {
    if n < 10 {
      assert ([DigitChar(n)] + rest)[1..] == rest;
    } else {
      var last := [DigitChar(n % 10)];
      DigitsParse(n / 10, "");
      assert Digits(n / 10) + "" == Digits(n / 10);
      assert Digits(n) + rest == Digits(n / 10) + (last + rest);
      ParseDigitsAppend(Digits(n / 10), last + rest, 0);
      assert (last + rest)[1..] == rest;
    }
  }

  /** A decimal survives the trip through a pipe, whatever non-digit byte follows it. */
  lemma AtoiIntToStr(n: int, rest: string)
    requires rest == "" || !IsDigit(rest[0])
    ensures Atoi(IntToStr(n) + rest) == n
  {
    var m := if n < 0 then -n else n;
    var s := Digits(m) + rest;
    DigitsParse(m, rest);
    assert s[0] == Digits(m)[0];
    if n < 0 {
      AtoiMinus(s);
      assert IntToStr(n) + rest == "-" + s;
    } else {
      AtoiPlain(s);
    }
  }

  lemma AtoiPlain(s: string)
    requires s != "" && IsDigit(s[0])
    ensures Atoi(s) == ParseDigits(s, 0)
  {
  }

  lemma AtoiMinus(s: string)
    ensures Atoi("-" + s) == 0 - ParseDigits(s, 0)
  {
    assert ("-" + s)[0] == '-' && ("-" + s)[1..] == s;
  }

  function Pow10(k: nat): (p: nat)
    ensures p > 0
  {
    if k == 0 then 1 else 10 * Pow10(k - 1)
  }

  /** Dividing by ten and then by `p` is dividing by their product. */
  lemma DivideTwice(n: nat, p: nat)
    requires p > 0
    ensures n / 10 / p == n / (10 * p)
  {
    var a, q := n / 10, n / 10 / p;
    var r, d := a % p, n % 10;
    assert n == 10 * (p * q + r) + d;
    assert n == (10 * p) * q + (10 * r + d) && 10 * r + d < 10 * p;
    QuotientIs(n, 10 * p, q, 10 * r + d);
  }

  lemma {:induction false} Apart(m: nat, a: nat, b: nat)
    ensures a < b ==> m * a + m <= m * b
    decreases b
  {
    if b == 0 {
    } else {
      assert m * b == m * (b - 1) + m;
      Apart(m, a, b - 1);
    }
  }

  lemma QuotientIs(n: nat, m: nat, q: nat, r: nat)
    requires m > 0 && n == m * q + r && r < m
    ensures n / m == q
  {
    var d := n / m;
    assert n == m * d + n % m;
    Apart(m, d, q);
    Apart(m, q, d);
  }

  /** The decimal of `n` place by place, the last place first: `n / 10^k` modulo ten; there are as many
      places as `n` needs, so that no zero leads. */
  lemma {:induction false} DigitAt(n: nat, k: nat)
    ensures |Digits(n)| > 0
    ensures k < |Digits(n)| ==> Digits(n)[|Digits(n)| - 1 - k] == DigitChar(n / Pow10(k) % 10)
    ensures k < |Digits(n)| <==> k == 0 || Pow10(k) <= n
    decreases k
  {
    if n >= 10 && k > 0 {
      DigitAt(n / 10, k - 1);
      DivideTwice(n, Pow10(k - 1));
      if k == 1 {
      } else {
        PlaceShift(n, Pow10(k - 1));
      }
    }
  }

  lemma PlaceShift(n: nat, p: nat)
    ensures p <= n / 10 <==> 10 * p <= n
  {
  }

  /** `snprintf("%d")`, place by place. */
  lemma IntToStrPlaces(n: int, k: nat)
    ensures var m, s := if n < 0 then -n else n, IntToStr(n);
      var places := if n < 0 then |s| - 1 else |s|;
      && places > 0 && (n < 0 ==> s[0] == '-')
      && (k < places <==> k == 0 || Pow10(k) <= m)
      && (k < places ==> s[|s| - 1 - k] == DigitChar(m / Pow10(k) % 10))
  {
    DigitAt(if n < 0 then -n else n, k);
  }

  lemma ReplyReads(n: int)
    ensures Atoi(IntToStr(n)) == n
  {
    AtoiIntToStr(n, "");
    assert IntToStr(n) + "" == IntToStr(n);
  }

  // ----- secrets --------------------------------------------------------------------------

  /** Conversion of an `unsigned long` argument to the `int` parameter of `intTostr`. */
  function ToInt32(n: nat): int {
    var r := n % 0x1_0000_0000;
    if r < 0x8000_0000 then r else r - 0x1_0000_0000
  }

  /** Conversion of the `int` result of `atoi` back to the `unsigned long` secret. */
  function ToUlong(n: int): nat
    requires -0x8000_0000 <= n < 0x8000_0000
  {
    if n < 0 then n + 0x1_0000_0000_0000_0000 else n
  }

  /** What one process writes into the exchange FIFO for its secret. */
  function SecretBytes(secret: nat): string { IntToStr(ToInt32(secret)) + [NUL] }

  /** What the other process stores after reading those bytes. */
  function StoredSecret(bytes: string): nat {
    var n := Atoi(bytes);
    if -0x8000_0000 <= n < 0x8000_0000 then ToUlong(n) else 0
  }

  lemma Int32Bits(n: nat)
    requires n < 0x1_0000_0000_0000_0000
    ensures -0x8000_0000 <= ToInt32(n) < 0x8000_0000
    ensures ToUlong(ToInt32(n)) == n <==> n < 0x8000_0000 || n >= 0x1_0000_0000_0000_0000 - 0x8000_0000
  {
    var q, r := n / 0x1_0000_0000, n % 0x1_0000_0000;
    assert n == q * 0x1_0000_0000 + r && q <= 0xFFFF_FFFF;
  }

  /** The secret passes through `int`: what arrives are its low 32 bits, sign-extended. It arrives
      unchanged exactly when its value fits (as the values of `rand()` do) or is the sign extension of a
      negative `int`. */
  lemma SecretSurvives(secret: nat)
    requires secret < 0x1_0000_0000_0000_0000
    ensures StoredSecret(SecretBytes(secret)) == secret
            <==> secret < 0x8000_0000 || secret >= 0x1_0000_0000_0000_0000 - 0x8000_0000
    ensures var low := secret % 0x1_0000_0000;
      StoredSecret(SecretBytes(secret)) == if low < 0x8000_0000 then low else 0xFFFF_FFFF_0000_0000 + low
  {
    Int32Bits(secret);
    SecretReads(ToInt32(secret));
  }

  lemma SecretReads(n: int)
    ensures Atoi(IntToStr(n) + [NUL]) == n
  {
    AtoiIntToStr(n, [NUL]);
  }

  lemma {:induction false} DigitsLength(n: nat, k: nat)
    requires k > 0 && n < Pow10(k)
    ensures |Digits(n)| <= k
    decreases k
  {
    if n >= 10 {
      DigitsLength(n / 10, k - 1);
    }
  }

  predicate IsMessage(x: string) { 0 < |x| < BUFFER_LEN }

  /** A secret from `rand()` makes a message of at most twelve bytes and arrives unchanged. */
  lemma MessageOk(n: nat)
    requires n < 0x8000_0000
    ensures IsMessage(SecretBytes(n)) && StoredSecret(SecretBytes(n)) == n
  {
    SecretSurvives(n);
    assert Pow10(5) == 100000;
    assert Pow10(10) == 10000000000;
    DigitsLength(n, 10);
  }

  // ----- tokens (strtok_r) ----------------------------------------------------------------

  predicate IsField(s: string, d: char) { s != "" && d !in s }

  /** Length of the longest prefix free of the delimiter. */
  function FieldLen(s: string, d: char): (n: nat)
    ensures n <= |s|
    ensures d !in s[..n]
    ensures n < |s| ==> s[n] == d
  {
    if s == "" || s[0] == d then 0 else 1 + FieldLen(s[1..], d)
  }

  /** The tokens `strtok`/`strtok_r` delivers one after the other. */
  function Tokens(s: string, d: char): seq<string>
    decreases |s|
  {
    if s == "" then []
    else if s[0] == d then Tokens(s[1..], d)
    else [s[..FieldLen(s, d)]] + Tokens(s[FieldLen(s, d)..], d)
  }

  lemma {:induction false} FieldLenOf(f: string, rest: string, d: char)
    requires d !in f && (rest == "" || rest[0] == d)
    ensures FieldLen(f + rest, d) == |f|
    decreases |f|
  {
    if f == "" {
      assert f + rest == rest;
    } else {
      assert (f + rest)[1..] == f[1..] + rest;
      FieldLenOf(f[1..], rest, d);
    }
  }

  lemma TokensCons(f: string, rest: string, d: char)
    requires IsField(f, d) && (rest == "" || rest[0] == d)
    ensures Tokens(f + rest, d) == [f] + Tokens(rest, d)
  {
    FieldLenOf(f, rest, d);
    assert (f + rest)[..|f|] == f && (f + rest)[|f|..] == rest;
    assert (f + rest)[0] == f[0] && f[0] in f;
  }

  lemma TokensSkip(rest: string, d: char)
    ensures Tokens([d] + rest, d) == Tokens(rest, d)
  {
    assert ([d] + rest)[1..] == rest;
  }

  // ----- commands -------------------------------------------------------------------------

  datatype Command =
    | Spawn(parent: string, child: string)
    | Kill(target: string, tag: string)
    | Exchange(a: string, b: string, found: nat)

  datatype Option<T> = None | Some(value: T)

  predicate ValidName(s: string) {
    IsField(s, ' ') && |s| < MAX_SERVICE_NAME_LEN && NUL !in s
  }

  predicate ValidCommand(c: Command) {
    match c
    case Spawn(p, n) => ValidName(p) && ValidName(n)
    case Kill(t, tag) => ValidName(t) && (tag == "N" || tag == "Y")
    case Exchange(a, b, g) => ValidName(a) && ValidName(b) && g <= 2
  }

  /** The line a service writes to a child: `gap` is the separator before the last field,
      one blank everywhere except for the Manager's own kill, which writes two. */
  function Render(c: Command, gap: string): string {
    match c
    case Spawn(p, n) => "spawn" + (" " + (p + (gap + n)))
    case Kill(t, tag) => "kill" + (" " + (t + (gap + tag)))
    case Exchange(a, b, g) => "exchange" + (" " + (a + (" " + (b + (gap + IntToStr(g))))))
  }

  /** How the receiver takes the line apart again. */
  function Parse(line: string): Option<Command> {
    var f := Tokens(line, ' ');
    if |f| == 3 && f[0] == "spawn" then Some(Spawn(f[1], f[2]))
    else if |f| == 3 && f[0] == "kill" then Some(Kill(f[1], f[2]))
    else if |f| == 4 && f[0] == "exchange" && Atoi(f[3]) >= 0 then Some(Exchange(f[1], f[2], Atoi(f[3])))
    else None
  }

  lemma TokensLast(gap: string, f: string)
    requires gap in {" ", "  "} && IsField(f, ' ')
    ensures Tokens(gap + f, ' ') == [f]
  {
    TokensCons(f, "", ' ');
    assert f + "" == f;
    TokensSkip(f, ' ');
    assert "  " + f == " " + (" " + f);
    TokensSkip(" " + f, ' ');
  }

  lemma TokensSep(f: string, rest: string)
    requires IsField(f, ' ') && (rest == "" || rest[0] == ' ')
    ensures Tokens(" " + (f + rest), ' ') == [f] + Tokens(rest, ' ')
  {
    TokensSkip(f + rest, ' ');
    TokensCons(f, rest, ' ');
  }

  lemma SpawnTokens(c: Command, gap: string)
    requires c.Spawn? && ValidCommand(c) && gap in {" ", "  "}
    ensures Tokens(Render(c, gap), ' ') == ["spawn", c.parent, c.child]
  {
    var rest := gap + c.child;
    TokensCons("spawn", " " + (c.parent + rest), ' ');
    TokensSep(c.parent, rest);
    TokensLast(gap, c.child);
  }

  lemma KillTokens(c: Command, gap: string)
    requires c.Kill? && ValidCommand(c) && gap in {" ", "  "}
    ensures Tokens(Render(c, gap), ' ') == ["kill", c.target, c.tag]
  {
    var rest := gap + c.tag;
    TokensCons("kill", " " + (c.target + rest), ' ');
    TokensSep(c.target, rest);
    TokensLast(gap, c.tag);
  }

  lemma ExchangeTokens(c: Command, gap: string)
    requires c.Exchange? && ValidCommand(c) && gap in {" ", "  "}
    ensures Tokens(Render(c, gap), ' ') == ["exchange", c.a, c.b, IntToStr(c.found)]
  {
    var count := IntToStr(c.found);
    assert count == [DigitChar(c.found)];
    var rest := " " + (c.b + (gap + count));
    TokensCons("exchange", " " + (c.a + rest), ' ');
    TokensSep(c.a, rest);
    TokensSep(c.b, gap + count);
    TokensLast(gap, count);
  }

  /** Re-tokenizing a rebuilt command gives back its fields, the found-count included, for
      single-blank lines and for the Manager's double-blank kill alike. */
  lemma CommandRoundTrip(c: Command, gap: string)
    requires ValidCommand(c) && gap in {" ", "  "}
    ensures Parse(Render(c, gap)) == Some(c)
    ensures Tokens(Render(c, gap), ' ') ==
      match c
      case Spawn(parent, child) => ["spawn", parent, child]
      case Kill(target, tag) => ["kill", target, tag]
      case Exchange(a, b, found) => ["exchange", a, b, IntToStr(found)]
  {
    match c
    case Spawn(_, _) => SpawnTokens(c, gap);
    case Kill(_, _) => KillTokens(c, gap);
    case Exchange(_, _, g) =>
      ExchangeTokens(c, gap);
      AtoiIntToStr(g, "");
      assert IntToStr(g) + "" == IntToStr(g);
  }

  /** A rebuilt command is a NUL-free string that leaves room for its terminator. */
  lemma RenderedFits(c: Command, gap: string)
    requires ValidCommand(c) && gap in {" ", "  "}
    ensures NUL !in Render(c, gap) && |Render(c, gap)| < BUFFER_LEN
  {
    if c.Exchange? {
      assert IntToStr(c.found) == [DigitChar(c.found)];
    }
  }

  // ----- framing --------------------------------------------------------------------------

  /** Every message with its terminator, in order: the byte stream of a pipe. */
  function Encode(msgs: seq<string>): string {
    if msgs == [] then "" else msgs[0] + [NUL] + Encode(msgs[1..])
  }

  /** One direction of a parent-child connection. */
  class Pipe {
    var bytes: string  // written and not yet read, oldest first

    constructor ()
      ensures bytes == ""
    {
      bytes := "";
    }

    /** `writeToChild`/`writeToParent`: the message and its terminator, one byte per write. */
    method WriteMessage(msg: string)
      modifies this
      ensures bytes == old(bytes) + msg + [NUL]
    {
      var i := 0;
      while i < |msg| + 1
        invariant 0 <= i <= |msg| + 1
        invariant bytes == old(bytes) + (msg + [NUL])[..i]
      {
        bytes := bytes + [(msg + [NUL])[i]];
        i := i + 1;
      }
      assert (msg + [NUL])[..i] == msg + [NUL];
    }

    /** `readFromParent`/`readFomChild`: bytes up to a terminator, or up to end of file, into a
        buffer of BUFFER_LEN bytes that must also take the terminator. */
    method ReadMessage() returns (response: string)
      requires FieldLen(bytes, NUL) < BUFFER_LEN
      modifies this
      ensures response == old(bytes)[..FieldLen(old(bytes), NUL)]
      ensures bytes == if NUL in old(bytes) then old(bytes)[|response| + 1..] else ""
    {
      ghost var len := FieldLen(bytes, NUL);
      var buffer := new char[BUFFER_LEN];
      var p := 0;
      while bytes != ""
        invariant 0 <= p <= len
        invariant bytes == old(bytes)[p..]
        invariant buffer[..p] == old(bytes)[..p]
        invariant fresh(buffer)
        decreases |bytes|
      {
        var temp := bytes[0];
        bytes := bytes[1..];
        if temp != NUL {
          buffer[p] := temp;
          p := p + 1;
        } else {
          break;
        }
      }
      buffer[p] := NUL;
      response := buffer[..p];
    }
  }

  /** Reading one framed message takes exactly that message off the stream. */
  lemma NextMessage(msg: string, rest: seq<string>)
    requires NUL !in msg
    ensures FieldLen(Encode([msg] + rest), NUL) == |msg| && Encode([msg] + rest)[..|msg|] == msg
    ensures NUL in Encode([msg] + rest)
    ensures Encode([msg] + rest)[|msg| + 1..] == Encode(rest)
  {
    var s := Encode([msg] + rest);
    assert ([msg] + rest)[1..] == rest;
    assert s == msg + ([NUL] + Encode(rest));
    FieldLenOf(msg, [NUL] + Encode(rest), NUL);
    assert s[|msg|] == NUL;
  }

  lemma {:induction false} EncodeAppend(msgs: seq<string>, msg: string)
    ensures Encode(msgs + [msg]) == Encode(msgs) + msg + [NUL]
    decreases |msgs|
  {
    if msgs == [] {
      assert [msg][1..] == [];
      assert msgs + [msg] == [msg];
    } else {
      assert (msgs + [msg])[1..] == msgs[1..] + [msg];
      EncodeAppend(msgs[1..], msg);
    }
  }

  method SendAll(pipe: Pipe, msgs: seq<string>)
    requires pipe.bytes == "" && forall m :: m in msgs ==> NUL !in m
    modifies pipe
    ensures pipe.bytes == Encode(msgs)
  {
    var i := 0;
    while i < |msgs|
      invariant 0 <= i <= |msgs|
      invariant pipe.bytes == Encode(msgs[..i])
    {
      pipe.WriteMessage(msgs[i]);
      EncodeAppend(msgs[..i], msgs[i]);
      assert msgs[..i + 1] == msgs[..i] + [msgs[i]];
      i := i + 1;
    }
    assert msgs[..i] == msgs;
  }

  /** One read takes one message. */
  method ReadNext(pipe: Pipe, ghost msg: string, ghost rest: seq<string>) returns (m: string)
    requires pipe.bytes == Encode([msg] + rest) && NUL !in msg && |msg| < BUFFER_LEN
    modifies pipe
    ensures m == msg && pipe.bytes == Encode(rest)
  {
    NextMessage(msg, rest);
    m := pipe.ReadMessage();
  }

  /** Any list of messages written to a pipe comes out message by message, in order. */
  method Transfer(pipe: Pipe, msgs: seq<string>) returns (received: seq<string>)
    requires pipe.bytes == ""
    requires forall m :: m in msgs ==> NUL !in m && |m| < BUFFER_LEN
    modifies pipe
    ensures received == msgs && pipe.bytes == ""
  {
    SendAll(pipe, msgs);
    received := [];
    var i := 0;
    assert msgs[0..] == msgs;
    while i < |msgs|
      invariant 0 <= i <= |msgs|
      invariant pipe.bytes == Encode(msgs[i..])
      invariant received == msgs[..i]
    {
      assert msgs[i..] == [msgs[i]] + msgs[i + 1..];
      var m := ReadNext(pipe, msgs[i], msgs[i + 1..]);
      received := received + [m];
      i := i + 1;
    }
  }

  // ----- reader and writer at once --------------------------------------------------------

  /** A pipe with its two ends at work: bytes still to be written, bytes in the pipe, what the reader
      has of the message it is reading, and what it has received. */
  datatype Transit = Transit(unwritten: string, bytes: string, partial: string, received: seq<string>)

  /** One `write` or one `read` of one byte; a read from an empty pipe waits. */
  function Pass(t: Transit, write: bool): Transit {
    if write then
      if t.unwritten == "" then t else t.(unwritten := t.unwritten[1..], bytes := t.bytes + [t.unwritten[0]])
    else if t.bytes == "" then t
    else if t.bytes[0] == NUL then
      Transit(t.unwritten, t.bytes[1..], "", t.received + [t.partial])
    else t.(bytes := t.bytes[1..], partial := t.partial + [t.bytes[0]])
  }

  function PassAll(t: Transit, schedule: seq<bool>): Transit
    decreases |schedule|
  {
    if schedule == [] then t else PassAll(Pass(t, schedule[0]), schedule[1..])
  }

  ghost predicate Plain(msgs: seq<string>) { forall m :: m in msgs ==> NUL !in m }

  /** Nothing is lost, doubled or reordered. */
  ghost predicate Conserved(t: Transit, stream: string) {
    Plain(t.received) && NUL !in t.partial && Encode(t.received) + (t.partial + (t.bytes + t.unwritten)) == stream
  }

  lemma PassConserves(t: Transit, write: bool, stream: string)
    requires Conserved(t, stream)
    ensures Conserved(Pass(t, write), stream)
  {
    var t' := Pass(t, write);
    if write && t.unwritten != "" {
      assert t.bytes + [t.unwritten[0]] + t.unwritten[1..] == t.bytes + t.unwritten;
    } else if !write && t.bytes != "" {
      var c, rest := t.bytes[0], t.bytes[1..] + t.unwritten;
      assert t.bytes + t.unwritten == [c] + rest;
      if c == NUL {
        EncodeAppend(t.received, t.partial);
        assert Encode(t.received) + t.partial + [NUL] + ("" + rest)
            == Encode(t.received) + (t.partial + ([NUL] + rest));
      } else {
        assert t.partial + [c] + rest == t.partial + ([c] + rest);
      }
    }
  }

  lemma {:induction false} PassAllConserves(t: Transit, schedule: seq<bool>, stream: string)
    requires Conserved(t, stream)
    ensures Conserved(PassAll(t, schedule), stream)
    decreases |schedule|
  {
    if schedule == [] {
    } else {
      PassConserves(t, schedule[0], stream);
      PassAllConserves(Pass(t, schedule[0]), schedule[1..], stream);
    }
  }

  /** A stream can be taken apart into messages in one way only. */
  lemma {:induction false} DecodesOnce(r: seq<string>, rest: string, msgs: seq<string>)
    requires Plain(r) && Plain(msgs) && Encode(r) + rest == Encode(msgs)
    ensures r <= msgs && rest == Encode(msgs[|r|..])
    decreases r
  {
    if r == [] {
      assert Encode(r) + rest == rest;
    } else {
      assert Encode(r) + rest == r[0] + ([NUL] + (Encode(r[1..]) + rest));
      assert msgs != [] && Encode(msgs) == msgs[0] + ([NUL] + Encode(msgs[1..]));
      FieldLenOf(r[0], [NUL] + (Encode(r[1..]) + rest), NUL);
      FieldLenOf(msgs[0], [NUL] + Encode(msgs[1..]), NUL);
      SamePrefix(r[0], msgs[0], [NUL] + (Encode(r[1..]) + rest), [NUL] + Encode(msgs[1..]));
      assert ([NUL] + (Encode(r[1..]) + rest))[1..] == Encode(r[1..]) + rest;
      assert ([NUL] + Encode(msgs[1..]))[1..] == Encode(msgs[1..]);
      DecodesOnce(r[1..], rest, msgs[1..]);
      assert msgs[1..][|r| - 1..] == msgs[|r|..];
    }
  }

  lemma SamePrefix(a: string, b: string, s: string, t: string)
    requires |a| == |b| && a + s == b + t
    ensures a == b && s == t
  {
    assert (a + s)[..|a|] == a && (b + t)[..|b|] == b;
    assert (a + s)[|a|..] == s && (b + t)[|b|..] == t;
  }

  /** However writing and reading are interleaved, byte by byte, what has been received is the
      beginning of what is sent, the buffer never holds more than a message, and once all bytes have
      been read everything has been received. */
  lemma ReadsWhatIsWritten(msgs: seq<string>, schedule: seq<bool>)
    requires forall m :: m in msgs ==> NUL !in m && |m| < BUFFER_LEN
    ensures var t := PassAll(Transit(Encode(msgs), "", "", []), schedule);
      && t.received <= msgs && |t.partial| < BUFFER_LEN
      && (t.unwritten == "" && t.bytes == "" ==> t.received == msgs && t.partial == "")
  {
    var t0 := Transit(Encode(msgs), "", "", []);
    var t := PassAll(t0, schedule);
    assert Encode([]) + ("" + ("" + Encode(msgs))) == Encode(msgs);
    PassAllConserves(t0, schedule, Encode(msgs));
    DecodesOnce(t.received, t.partial + (t.bytes + t.unwritten), msgs);
    PartialFits(t.partial, t.bytes + t.unwritten, msgs[|t.received|..]);
  }

  lemma PartialFits(partial: string, rest: string, msgs: seq<string>)
    requires NUL !in partial && partial + rest == Encode(msgs)
    requires forall m :: m in msgs ==> NUL !in m && |m| < BUFFER_LEN
    ensures |partial| < BUFFER_LEN && (rest == "" ==> msgs == [] && partial == "")
  {
    if msgs == [] {
    } else {
      assert Encode(msgs)[|msgs[0]|] == NUL;
      forall i | 0 <= i < |partial| ensures Encode(msgs)[i] != NUL {
        assert (partial + rest)[i] == partial[i] && partial[i] in partial;
      }
    }
  }
}
