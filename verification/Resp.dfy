/** The request parser of the cache server, as functions of the handler's state and the bytes
    waiting in its read buffer. It can stop for want of input after any item and take up again.
 */
module Resp {
  import opened Buffers

  const CRLF := "\r\n"
  const INT_MAX: int := 0x7FFF_FFFF
  const SIZE_LIMIT: int := 0x1_0000_0000_0000_0000

  /** argc_ counts the items of the request, 0 between requests; curArgvlen_ is the announced
      length of the next item, negative while its announcement is awaited. */
  datatype Handler = Handler(argc: nat, argv: seq<string>, curArgvlen: int)

  datatype Outcome = NeedMore | Ready | Bad(reply: string)

  const BAD_COUNT := "-ERR Protocol error: invalid multibulk length\r\n"
  const BAD_LENGTH := "-ERR Protocol error: invalid bulk length (argv_len)\r\n"
  const BAD_ITEM := "-ERR Protocol error: invalid bulk length (argv_str)\r\n"

  // ---------------------------------------------------------------- numbers

  predicate IsDigit(c: char) { '0' <= c <= '9' }

  predicate IsSpace(c: char) { c == ' ' || '\t' <= c <= '\r' }

  function DigitsValue(s: string, soFar: nat): nat {
    if s == "" || !IsDigit(s[0]) then soFar else DigitsValue(s[1..], 10 * soFar + (s[0] - '0') as nat)
  }

  function SkipSpaces(s: string): string {
    if s != "" && IsSpace(s[0]) then SkipSpaces(s[1..]) else s
  }

  /** The value as a long, which stops at its ends. */
  function ToLong(v: int): int {
    if v > 0x7FFF_FFFF_FFFF_FFFF then 0x7FFF_FFFF_FFFF_FFFF
    else if v < -0x8000_0000_0000_0000 then -0x8000_0000_0000_0000
    else v
  }

  /** A long cut down to an int. */
  function ToInt(v: int): int {
    var low := v % 0x1_0000_0000;
    if low > INT_MAX then low - 0x1_0000_0000 else low
  }

  function Atoi(s: string): int {
    var t := SkipSpaces(s);
    if t != "" && t[0] == '-' then ToInt(ToLong(0 - DigitsValue(t[1..], 0)))
    else if t != "" && t[0] == '+' then ToInt(ToLong(DigitsValue(t[1..], 0)))
    else ToInt(ToLong(DigitsValue(t, 0)))
  }

  /** An int stored in a size_t. */
  function ToSize(v: int): nat
    requires -SIZE_LIMIT <= v
  {
    if v < 0 then SIZE_LIMIT + v else v
  }

  predicate AllSpaces(s: string) { forall i :: 0 <= i < |s| ==> IsSpace(s[i]) }

  lemma {:induction false} SkipsAll(spaces: string, s: string)
    requires AllSpaces(spaces) && (s == "" || !IsSpace(s[0]))
    ensures SkipSpaces(spaces + s) == s
    decreases |spaces|
  {
    if spaces == "" {
      assert spaces + s == s;
    } else {
      assert (spaces + s)[1..] == spaces[1..] + s;
      SkipsAll(spaces[1..], s);
    }
  }

  lemma {:induction false} DigitsStop(digits: string, rest: string, soFar: nat)
    requires (forall i :: 0 <= i < |digits| ==> IsDigit(digits[i])) && (rest == "" || !IsDigit(rest[0]))
    ensures DigitsValue(digits + rest, soFar) == DigitsValue(digits, soFar)
    decreases |digits|
  {
    if digits == "" {
      assert digits + rest == rest;
    } else {
      assert (digits + rest)[1..] == digits[1..] + rest;
      DigitsStop(digits[1..], rest, 10 * soFar + (digits[0] - '0') as nat);
    }
  }

  // ---------------------------------------------------------------- parsing

  /** A line that should announce a number after a mark. */
  function Announced(line: string, mark: char): (n: int)
    requires line != "" && line[0] == mark
    ensures -0x8000_0000 <= n <= INT_MAX
  {
    Atoi(line[1..])
  }

  predicate Announces(line: string, mark: char) { line != "" && line[0] == mark }

  function Parse(h: Handler, input: string): (Handler, string, Outcome) {
    if input == "" then (h, input, NeedMore)
    else if h.argc == 0 then ParseCount(input)
    else ParseItems(h, input)
  }

  /** A request from its first line on; the state left by earlier requests plays no part. */
  function ParseCount(input: string): (Handler, string, Outcome) {
    var (h, rest, o) := CountLine(input);
    if o == Ready then ParseItems(h, rest) else (h, rest, o)
  }

  /** The first line: Ready when it announces a count. */
  function CountLine(input: string): (Handler, string, Outcome) {
    var i := Find(input, CRLF);
    if i == |input| then (Handler(0, [], -1), input, NeedMore)
    else
      var line := input[..i];
      if !Announces(line, '*') || Announced(line, '*') == 0 then (Handler(0, [], -1), input[i..], Bad(BAD_COUNT))
      else (Handler(ToSize(Announced(line, '*')), [], -1), input[i + 2..], Ready)
  }

  function ParseItems(h: Handler, input: string): (Handler, string, Outcome)
    decreases |input|
  {
    if |h.argv| >= h.argc then (h, input, if h.argc > 0 && |h.argv| == h.argc then Ready else NeedMore)
    else
      var i := Find(input, CRLF);
      if i == |input| then (h, input, NeedMore)
      else
        var (h1, rest, o) := ItemLine(h, input, i);
        if o == Ready then ParseItems(h1, rest) else (h1, rest, o)
  }

  /** One more line, which ends at i: an announced length, or an item of that length. */
  function ItemLine(h: Handler, input: string, i: nat): (r: (Handler, string, Outcome))
    requires i + 2 <= |input|
    ensures r.2 == Ready ==> |r.1| < |input| && r.0.argc == h.argc
    ensures r.2 != NeedMore
  {
    var line := input[..i];
    if h.curArgvlen < 0 then
      if !Announces(line, '$') then (h.(curArgvlen := -1, argc := 0), input[i..], Bad(BAD_LENGTH))
      else (h.(curArgvlen := Announced(line, '$')), input[i + 2..], Ready)
    else if |line| != h.curArgvlen then (h.(curArgvlen := -1, argc := 0), input[i..], Bad(BAD_ITEM))
    else (h.(argv := h.argv + [line], curArgvlen := -1), input[i + 2..], Ready)
  }

  // ---------------------------------------------------------------- chunks

  /** What comes later does not move the first line end. */
  lemma FindInLonger(a: string, b: string)
    requires Find(a, CRLF) < |a|
    ensures Find(a + b, CRLF) == Find(a, CRLF)
  {
    var i := Find(a, CRLF);
    forall j | 0 <= j <= i
      ensures OccursAt(a + b, CRLF, j) <==> OccursAt(a, CRLF, j)
    {
      assert j + 2 <= |a| ==> (a + b)[j..j + 2] == a[j..j + 2];
    }
    assert OccursAt(a + b, CRLF, i);
  }

  /** The parts of a line and what follows it, in the longer input. */
  lemma CutInLonger(a: string, b: string, i: nat)
    requires i + 2 <= |a|
    ensures (a + b)[..i] == a[..i] && (a + b)[i..] == a[i..] + b && (a + b)[i + 2..] == a[i + 2..] + b
  {
  }

  /** Parsing on after more input has arrived, or parsing all of it in one go. */
  ghost predicate Continues(whole: (Handler, string, Outcome), part: (Handler, string, Outcome), more: string) {
    whole == if part.2 == NeedMore then ParseItems(part.0, part.1 + more) else (part.0, part.1 + more, part.2)
  }

  lemma LineInLonger(h: Handler, a: string, b: string, i: nat)
    requires i + 2 <= |a|
    ensures var (h1, rest, o) := ItemLine(h, a, i); ItemLine(h, a + b, i) == (h1, rest + b, o)
  {
    CutInLonger(a, b, i);
  }

  lemma {:induction false} ItemsInChunks(h: Handler, a: string, b: string)
    ensures Continues(ParseItems(h, a + b), ParseItems(h, a), b)
    decreases |a|
  {
    var i := Find(a, CRLF);
    if |h.argv| < h.argc && i < |a| {
      FindInLonger(a, b);
      LineInLonger(h, a, b, i);
      var (h1, rest, o) := ItemLine(h, a, i);
      if o == Ready {
        ItemsInChunks(h1, rest, b);
      }
    }
  }

  /** While items are awaited the request's count stays put. */
  lemma {:induction false} AwaitingItems(h: Handler, a: string)
    requires ParseItems(h, a).2 == NeedMore
    ensures ParseItems(h, a).0.argc == h.argc
    decreases |a|
  {
    var i := Find(a, CRLF);
    if |h.argv| < h.argc && i < |a| {
      var (h1, rest, _) := ItemLine(h, a, i);
      AwaitingItems(h1, rest);
    }
  }

  /** Between requests an empty buffer is left alone, and a non-empty one starts a request. */
  lemma CountInChunks(a: string, b: string)
    requires a != ""
    ensures ParseCount(a).2 == NeedMore ==>
      ParseCount(a + b) == Parse(ParseCount(a).0, ParseCount(a).1 + b)
    ensures ParseCount(a).2 != NeedMore ==>
      ParseCount(a + b) == (ParseCount(a).0, ParseCount(a).1 + b, ParseCount(a).2)
  {
    var (h, rest, o) := CountLine(a);
    if o != NeedMore {
      CountLineInLonger(a, b);
      if o == Ready {
        ItemsInChunks(h, rest, b);
        if ParseItems(h, rest).2 == NeedMore { ResumeItems(h, rest, b); }
      }
    }
  }

  lemma CountLineInLonger(a: string, b: string)
    requires CountLine(a).2 != NeedMore
    ensures var (h, rest, o) := CountLine(a); CountLine(a + b) == (h, rest + b, o)
    ensures CountLine(a).2 == Ready ==> CountLine(a).0.argc > 0
  {
    FindInLonger(a, b);
    CutInLonger(a, b, Find(a, CRLF));
  }

  lemma ResumeItems(h: Handler, a: string, b: string)
    requires h.argc > 0 && ParseItems(h, a).2 == NeedMore
    ensures var (h1, left, _) := ParseItems(h, a); Parse(h1, left + b) == ParseItems(h1, left + b)
  {
    AwaitingItems(h, a);
    StopsAgain(h, a);
  }

  /** Parsing what is left over once more changes nothing. */
  lemma {:induction false} StopsAgain(h: Handler, a: string)
    requires ParseItems(h, a).2 == NeedMore
    ensures var (h1, left, _) := ParseItems(h, a); ParseItems(h1, left) == (h1, left, NeedMore)
    decreases |a|
  {
    var i := Find(a, CRLF);
    if |h.argv| < h.argc && i < |a| {
      var (h1, rest, _) := ItemLine(h, a, i);
      StopsAgain(h1, rest);
    }
  }

  /** Chunk independence: if parsing some bytes asks for more, resuming on what was left over and
      the next bytes gives the same state, leftover and outcome as parsing all of them at once. */
  lemma ChunkIndependence(h: Handler, a: string, b: string)
    requires Parse(h, a).2 == NeedMore
    ensures var (h1, left, _) := Parse(h, a); Parse(h1, left + b) == Parse(h, a + b)
  {
    if a == "" {
      assert a + b == b;
    } else if h.argc == 0 {
      CountInChunks(a, b);
    } else {
      ItemsInChunks(h, a, b);
      ResumeItems(h, a, b);
    }
  }

  /** An outcome once reached does not depend on what comes after. */
  lemma OutcomeStands(h: Handler, a: string, b: string)
    requires Parse(h, a).2 != NeedMore
    ensures var (h1, left, o) := Parse(h, a); Parse(h, a + b) == (h1, left + b, o)
  {
    if h.argc == 0 {
      CountInChunks(a, b);
    } else {
      ItemsInChunks(h, a, b);
    }
  }

  /** One read event after the other, until a request is complete or refused. */
  function Feed(h: Handler, left: string, chunks: seq<string>): (Handler, string, Outcome, seq<string>)
    decreases |chunks|
  {
    if chunks == [] then (h, left, NeedMore, [])
    else
      var (h1, left1, o) := Parse(h, left + chunks[0]);
      if o == NeedMore then Feed(h1, left1, chunks[1..]) else (h1, left1, o, chunks[1..])
  }

  function Concat(chunks: seq<string>): string {
    if chunks == [] then "" else chunks[0] + Concat(chunks[1..])
  }

  /** However the bytes are split, the outcome, the state and the bytes not consumed are those of
      parsing them all at once. */
  lemma {:induction false} FeedIsParse(h: Handler, left: string, chunks: seq<string>)
    requires chunks != []
    ensures var (h1, left1, o, unread) := Feed(h, left, chunks);
      Parse(h, left + Concat(chunks)) == (h1, left1 + Concat(unread), o)
    decreases |chunks|
  {
    var c, tail := chunks[0], chunks[1..];
    var (h1, left1, o) := Parse(h, left + c);
    assert left + Concat(chunks) == (left + c) + Concat(tail);
    if o == NeedMore {
      ChunkIndependence(h, left + c, Concat(tail));
      if tail == [] {
        assert left1 + "" == left1 && (left + c) + "" == left + c;
      } else {
        FeedIsParse(h1, left1, tail);
      }
    } else {
      OutcomeStands(h, left + c, Concat(tail));
    }
  }

  // ---------------------------------------------------------------- round trip

  /** The decimal digits of a number. */
  function Decimal(n: nat): (s: string)
    ensures s != "" && forall i :: 0 <= i < |s| ==> IsDigit(s[i])
  {
    if n < 10 then ['0' + n as char] else Decimal(n / 10) + ['0' + (n % 10) as char]
  }

  /** A bulk string, as ReplyBulkString writes it. */
  function BulkString(item: string): string {
    "$" + Decimal(|item|) + CRLF + item + CRLF
  }

  function BulkStrings(items: seq<string>): string {
    if items == [] then "" else BulkString(items[0]) + BulkStrings(items[1..])
  }

  /** A request: an array of bulk strings. */
  function Encode(args: seq<string>): string {
    "*" + Decimal(|args|) + CRLF + BulkStrings(args)
  }

  predicate HasCrlf(item: string) { Find(item, CRLF) < |item| }

  lemma {:induction false} DigitsAppend(s: string, c: char, soFar: nat)
    requires IsDigit(c) && forall i :: 0 <= i < |s| ==> IsDigit(s[i])
    ensures DigitsValue(s + [c], soFar) == 10 * DigitsValue(s, soFar) + (c - '0') as nat
  {
    if s == "" {
      assert (s + [c])[1..] == "";
    } else {
      assert (s + [c])[1..] == s[1..] + [c];
      DigitsAppend(s[1..], c, 10 * soFar + (s[0] - '0') as nat);
    }
  }

  lemma {:induction false} DecimalValue(n: nat)
    ensures DigitsValue(Decimal(n), 0) == n
  {
    if n < 10 {
      assert Decimal(n)[1..] == "";
    } else {
      DecimalValue(n / 10);
      DigitsAppend(Decimal(n / 10), '0' + (n % 10) as char, 0);
    }
  }

  lemma AtoiOfDecimal(n: nat)
    requires n <= INT_MAX
    ensures Atoi(Decimal(n)) == n
  {
    DecimalValue(n);
    SmallInt(n);
    StartsWithDigit(Decimal(n));
  }

  lemma AtoiSkipsSpaces(spaces: string, s: string)
    requires AllSpaces(spaces) && (s == "" || !IsSpace(s[0]))
    ensures Atoi(spaces + s) == Atoi(s)
  {
    SkipsAll(spaces, s);
    SkipsAll("", s);
    assert "" + s == s;
  }

  lemma AtoiOfSigned(sign: string, number: string, n: nat)
    requires sign in {"", "+", "-"} && number != "" && IsDigit(number[0]) && DigitsValue(number, 0) == n <= INT_MAX
    ensures Atoi(sign + number) == if sign == "-" then 0 - n else n
    ensures sign + number != "" && !IsSpace((sign + number)[0])
  {
    SmallInt(n);
    if sign == "" {
      assert sign + number == number;
      StartsWithDigit(number);
    } else {
      assert (sign + number)[1..] == number;
    }
  }

  /** What atoi makes of a text: after spaces and a sign, the number that its leading digits spell;
      what follows the digits plays no part. */
  lemma AtoiReads(spaces: string, sign: string, n: nat, rest: string)
    requires AllSpaces(spaces) && sign in {"", "+", "-"} && n <= INT_MAX && (rest == "" || !IsDigit(rest[0]))
    ensures Atoi(spaces + (sign + (Decimal(n) + rest))) == if sign == "-" then 0 - n else n
  {
    DecimalValue(n);
    DigitsStop(Decimal(n), rest, 0);
    AtoiOfSigned(sign, Decimal(n) + rest, n);
    AtoiSkipsSpaces(spaces, sign + (Decimal(n) + rest));
  }

  /** And 0 where there are no digits. */
  lemma AtoiOfNothing(spaces: string, sign: string, rest: string)
    requires AllSpaces(spaces) && sign in {"", "+", "-"}
    requires rest == "" || (!IsDigit(rest[0]) && (sign == "" ==> !IsSpace(rest[0]) && rest[0] != '+' && rest[0] != '-'))
    ensures Atoi(spaces + (sign + rest)) == 0
  {
    if sign == "" {
      assert sign + rest == rest;
    } else {
      assert (sign + rest)[1..] == rest;
    }
    AtoiSkipsSpaces(spaces, sign + rest);
  }

  lemma SmallInt(n: nat)
    requires n <= INT_MAX
    ensures ToInt(ToLong(n)) == n && ToInt(ToLong(0 - n)) == 0 - n
  {
  }

  lemma StartsWithDigit(s: string)
    requires s != "" && IsDigit(s[0])
    ensures SkipSpaces(s) == s && s[0] != '-' && s[0] != '+'
  {
  }

  /** A text without a line end, then a line end: that is the first one. */
  lemma FindAfter(text: string, rest: string)
    requires !HasCrlf(text)
    ensures Find(text + CRLF + rest, CRLF) == |text|
  {
    var whole := text + CRLF + rest;
    forall j | 0 <= j < |text|
      ensures !OccursAt(whole, CRLF, j)
    {
      assert !OccursAt(text, CRLF, j);
      if j + 1 < |text| {
        assert whole[j..j + 2] == text[j..j + 2];
      } else {
        assert whole[j..j + 2][1] == '\r';
      }
    }
    assert whole[|text|..|text| + 2] == CRLF;
    assert OccursAt(whole, CRLF, |text|);
  }

  /** A text with a line end in it: its own comes first. */
  lemma FindWithin(text: string, rest: string)
    requires HasCrlf(text)
    ensures Find(text + CRLF + rest, CRLF) == Find(text, CRLF) < |text|
  {
    FindInLonger(text, CRLF + rest);
    assert text + CRLF + rest == text + (CRLF + rest);
  }

  /** A mark and digits make a line. */
  lemma NumberLine(mark: char, n: nat, rest: string)
    requires !IsDigit(mark) && mark != '\r' && n <= INT_MAX
    ensures var line := [mark] + Decimal(n);
      && Find(line + CRLF + rest, CRLF) == |line|
      && Announces(line, mark) && Announced(line, mark) == n
  {
    var line := [mark] + Decimal(n);
    forall j | 0 <= j < |line|
      ensures !OccursAt(line, CRLF, j)
    {
      if j + 2 <= |line| {
        assert line[j..j + 2][0] == line[j];
        assert j > 0 ==> line[j] == Decimal(n)[j - 1];
        assert CRLF[0] == '\r';
      }
    }
    FindAfter(line, rest);
    assert line[1..] == Decimal(n);
    AtoiOfDecimal(n);
  }

  /** The announced length of an item is read first. */
  lemma ItemAnnounced(h: Handler, item: string, rest: string)
    requires |h.argv| < h.argc && h.curArgvlen < 0 && |item| <= INT_MAX
    ensures ParseItems(h, BulkString(item) + rest) == ParseItems(h.(curArgvlen := |item|), item + CRLF + rest)
  {
    var line, body := "$" + Decimal(|item|), item + CRLF + rest;
    BulkIsLine(item, rest);
    NumberLine('$', |item|, body);
    LineTaken(h, line, body);
  }

  lemma BulkIsLine(item: string, rest: string)
    ensures BulkString(item) + rest == "$" + Decimal(|item|) + CRLF + (item + CRLF + rest)
  {
    BulkGroups("$", Decimal(|item|), CRLF, item, rest);
  }

  lemma BulkGroups(a: string, b: string, c: string, d: string, e: string)
    ensures a + b + c + d + c + e == a + b + c + (d + c + e)
  {
  }

  /** A line that announces a length is taken as that. */
  lemma LineTaken(h: Handler, line: string, after: string)
    requires |h.argv| < h.argc && h.curArgvlen < 0 && Announces(line, '$')
    requires Find(line + CRLF + after, CRLF) == |line|
    ensures ParseItems(h, line + CRLF + after) == ParseItems(h.(curArgvlen := Announced(line, '$')), after)
  {
    var input := line + CRLF + after;
    assert input[..|line|] == line && input[|line| + 2..] == after;
  }

  /** Then the item itself. */
  lemma ItemRead(h: Handler, item: string, rest: string)
    requires |h.argv| < h.argc && h.curArgvlen == |item|
    ensures !HasCrlf(item) ==>
      ParseItems(h, item + CRLF + rest) == ParseItems(h.(argv := h.argv + [item], curArgvlen := -1), rest)
    ensures HasCrlf(item) ==> ParseItems(h, item + CRLF + rest).2 == Bad(BAD_ITEM)
  {
    var body := item + CRLF + rest;
    if HasCrlf(item) {
      FindWithin(item, rest);
    } else {
      FindAfter(item, rest);
      assert body[..|item|] == item && body[|item| + 2..] == rest;
    }
  }

  /** One item: read back if it holds no line end, refused if it does. */
  lemma OneItem(h: Handler, item: string, rest: string)
    requires |h.argv| < h.argc && h.curArgvlen < 0 && |item| <= INT_MAX
    ensures !HasCrlf(item) ==>
      ParseItems(h, BulkString(item) + rest) == ParseItems(h.(argv := h.argv + [item], curArgvlen := -1), rest)
    ensures HasCrlf(item) ==> ParseItems(h, BulkString(item) + rest).2 == Bad(BAD_ITEM)
  {
    ItemAnnounced(h, item, rest);
    ItemRead(h.(curArgvlen := |item|), item, rest);
  }

  predicate Sized(items: seq<string>) {
    |items| <= INT_MAX && forall i :: 0 <= i < |items| ==> |items[i]| <= INT_MAX
  }

  predicate Clean(items: seq<string>) {
    forall i :: 0 <= i < |items| ==> !HasCrlf(items[i])
  }

  lemma CleanTail(items: seq<string>)
    requires items != []
    ensures Clean(items) <==> !HasCrlf(items[0]) && Clean(items[1..])
    ensures Sized(items) ==> Sized(items[1..])
  {
    assert forall i :: 0 <= i < |items[1..]| ==> items[1..][i] == items[i + 1];
    assert forall i :: 1 <= i < |items| ==> items[i] == items[1..][i - 1];
  }

  lemma FirstItem(h: Handler, items: seq<string>, rest: string)
    requires items != [] && |h.argv| < h.argc && h.curArgvlen == -1 && |items[0]| <= INT_MAX
    ensures !HasCrlf(items[0]) ==>
      ParseItems(h, BulkStrings(items) + rest) == ParseItems(h.(argv := h.argv + [items[0]]), BulkStrings(items[1..]) + rest)
    ensures HasCrlf(items[0]) ==> ParseItems(h, BulkStrings(items) + rest).2 == Bad(BAD_ITEM)
  {
    FirstBulk(items, rest);
    OneItem(h, items[0], BulkStrings(items[1..]) + rest);
    assert h.(argv := h.argv + [items[0]], curArgvlen := -1) == h.(argv := h.argv + [items[0]]);
  }

  lemma FirstBulk(items: seq<string>, rest: string)
    requires items != []
    ensures BulkStrings(items) + rest == BulkString(items[0]) + (BulkStrings(items[1..]) + rest)
  {
  }

  lemma {:induction false} CleanItems(n: nat, done: seq<string>, items: seq<string>, rest: string)
    requires n == |done| + |items| > 0 && Sized(items) && Clean(items)
    ensures ParseItems(Handler(n, done, -1), BulkStrings(items) + rest) == (Handler(n, done + items, -1), rest, Ready)
    decreases |items|
  {
    if items == [] {
      assert "" + rest == rest && done + [] == done;
    } else {
      CleanTail(items);
      FirstItem(Handler(n, done, -1), items, rest);
      CleanItems(n, done + [items[0]], items[1..], rest);
      MoveOne(done, items);
    }
  }

  lemma MoveOne(done: seq<string>, items: seq<string>)
    requires items != []
    ensures done + [items[0]] + items[1..] == done + items
  {
  }

  lemma {:induction false} UncleanItems(h: Handler, items: seq<string>, rest: string)
    requires h.argc == |h.argv| + |items| && h.curArgvlen == -1 && Sized(items) && !Clean(items)
    ensures ParseItems(h, BulkStrings(items) + rest).2 == Bad(BAD_ITEM)
    decreases |items|
  {
    CleanTail(items);
    FirstItem(h, items, rest);
    if !HasCrlf(items[0]) {
      UncleanItems(h.(argv := h.argv + [items[0]]), items[1..], rest);
    }
  }

  /** Round trip: between requests, an encoded list followed by any bytes parses back to exactly
      that list and leaves exactly those bytes, if and only if no item holds a line end; with one
      in an item the request is refused. */
  lemma RoundTrip(h: Handler, args: seq<string>, rest: string)
    requires h.argc == 0 && args != [] && Sized(args)
    ensures Parse(h, Encode(args) + rest) == (Handler(|args|, args, -1), rest, Ready) <==> Clean(args)
    ensures !Clean(args) ==> Parse(h, Encode(args) + rest).2 == Bad(BAD_ITEM)
  {
    var line := "*" + Decimal(|args|);
    var items := BulkStrings(args) + rest;
    var input := Encode(args) + rest;
    assert input == line + CRLF + items;
    NumberLine('*', |args|, items);
    assert input[..|line|] == line && input[|line| + 2..] == items;
    var h1 := Handler(|args|, [], -1);
    assert Parse(h, input) == ParseItems(h1, items);
    if Clean(args) {
      CleanItems(|args|, [], args, rest);
      assert [] + args == args;
    } else {
      UncleanItems(h1, args, rest);
    }
  }

  /** The same, however the bytes are split into read events. */
  lemma SplitRoundTrip(h: Handler, args: seq<string>, rest: string, chunks: seq<string>)
    requires h.argc == 0 && args != [] && Sized(args) && Clean(args)
    requires chunks != [] && Concat(chunks) == Encode(args) + rest
    ensures var (h1, left, o, unread) := Feed(h, "", chunks);
      o == Ready && h1.argv == args && left + Concat(unread) == rest
  {
    RoundTrip(h, args, rest);
    FeedIsParse(h, "", chunks);
    assert "" + Concat(chunks) == Concat(chunks);
  }

  // ---------------------------------------------------------------- what a request is

  /** An item as it is read: lines that announce a length, all but the last of them a negative one,
      and then a line of exactly the length announced last. */
  datatype Piece = Piece(headers: seq<string>, item: string)

  function Line(line: string): string { line + CRLF }

  function Lines(lines: seq<string>): string {
    if lines == [] then "" else Line(lines[0]) + Lines(lines[1..])
  }

  function PieceText(p: Piece): string { Lines(p.headers) + Line(p.item) }

  function Texts(pieces: seq<Piece>): string {
    if pieces == [] then "" else PieceText(pieces[0]) + Texts(pieces[1..])
  }

  function Items(pieces: seq<Piece>): seq<string> {
    if pieces == [] then [] else [pieces[0].item] + Items(pieces[1..])
  }

  /** What is left to read of an item once this length was announced last. */
  predicate Completes(pending: int, headers: seq<string>, item: string)
    decreases |headers|
  {
    if pending >= 0 then headers == [] && |item| == pending && !HasCrlf(item)
    else headers != [] && !HasCrlf(headers[0]) && Announces(headers[0], '$')
         && Completes(Announced(headers[0], '$'), headers[1..], item)
  }

  predicate WellFormed(pending: int, pieces: seq<Piece>)
    decreases |pieces|
  {
    pieces == [] || (Completes(pending, pieces[0].headers, pieces[0].item) && WellFormed(-1, pieces[1..]))
  }

  /** So in a well-formed request the last line before an item announces its length. */
  lemma {:induction false} LengthAnnounced(headers: seq<string>, item: string, pending: int)
    requires pending < 0 && Completes(pending, headers, item)
    ensures headers != [] && Announces(headers[|headers| - 1], '$') && Announced(headers[|headers| - 1], '$') == |item|
    decreases |headers|
  {
    var n := Announced(headers[0], '$');
    if n < 0 { LengthAnnounced(headers[1..], item, n); }
  }

  /** Reading one line. */
  lemma LineRead(line: string, after: string)
    requires !HasCrlf(line)
    ensures Find(Line(line) + after, CRLF) == |line| < |Line(line) + after|
    ensures (Line(line) + after)[..|line|] == line && (Line(line) + after)[|line| + 2..] == after
    ensures (Line(line) + after)[|line|..] == CRLF + after
  {
    assert Line(line) + after == line + CRLF + after;
    FindAfter(line, after);
  }

  /** The text up to the first line end is a line. */
  lemma LineCut(input: string)
    requires Find(input, CRLF) < |input|
    ensures var i := Find(input, CRLF);
      i + 2 <= |input| && !HasCrlf(input[..i]) && input == Line(input[..i]) + input[i + 2..]
  {
    var i := Find(input, CRLF);
    var line := input[..i];
    forall j | 0 <= j < |line|
      ensures !OccursAt(line, CRLF, j)
    {
      assert !OccursAt(input, CRLF, j);
      assert j + 2 <= |line| ==> line[j..j + 2] == input[j..j + 2];
    }
    assert input[i..i + 2] == CRLF;
    assert input == input[..i] + input[i..i + 2] + input[i + 2..];
  }

  /** The parser reads these pieces as their items. */
  predicate ReadAsItems(h: Handler, pieces: seq<Piece>, rest: string) {
    ParseItems(h, Texts(pieces) + rest) == ParseItems(Handler(h.argc, h.argv + Items(pieces), -1), rest)
  }

  function WithoutHeader(pieces: seq<Piece>): seq<Piece>
    requires pieces != [] && pieces[0].headers != []
  {
    [Piece(pieces[0].headers[1..], pieces[0].item)] + pieces[1..]
  }

  /** Pieces that are well-formed are read as their items, whatever follows. */
  lemma {:induction false} PiecesRead(h: Handler, pieces: seq<Piece>, rest: string)
    requires |h.argv| + |pieces| <= h.argc && WellFormed(h.curArgvlen, pieces) && (pieces == [] ==> h.curArgvlen == -1)
    ensures ReadAsItems(h, pieces, rest)
    decreases |pieces|, if pieces == [] then 0 else |pieces[0].headers|
  {
    if pieces == [] {
      assert Texts(pieces) + rest == rest && h.argv + Items(pieces) == h.argv;
    } else if h.curArgvlen < 0 {
      HeaderWellFormed(h.curArgvlen, pieces);
      PiecesRead(h.(curArgvlen := Announced(pieces[0].headers[0], '$')), WithoutHeader(pieces), rest);
      HeaderRead(h, pieces, rest);
    } else {
      PiecesRead(h.(argv := h.argv + [pieces[0].item], curArgvlen := -1), pieces[1..], rest);
      BodyRead(h, pieces, rest);
    }
  }

  lemma HeaderWellFormed(pending: int, pieces: seq<Piece>)
    requires pieces != [] && pending < 0 && WellFormed(pending, pieces)
    ensures pieces[0].headers != [] && Announces(pieces[0].headers[0], '$') && !HasCrlf(pieces[0].headers[0])
    ensures WellFormed(Announced(pieces[0].headers[0], '$'), WithoutHeader(pieces))
  {
    assert WithoutHeader(pieces)[1..] == pieces[1..];
  }

  lemma HeaderRead(h: Handler, pieces: seq<Piece>, rest: string)
    requires pieces != [] && |h.argv| < h.argc && h.curArgvlen < 0 && pieces[0].headers != []
    requires !HasCrlf(pieces[0].headers[0]) && Announces(pieces[0].headers[0], '$')
    requires ReadAsItems(h.(curArgvlen := Announced(pieces[0].headers[0], '$')), WithoutHeader(pieces), rest)
    ensures ReadAsItems(h, pieces, rest)
  {
    var line, fewer := pieces[0].headers[0], WithoutHeader(pieces);
    var after := Texts(fewer) + rest;
    HeaderTaken(pieces, rest);
    LineRead(line, after);
    assert ParseItems(h, Line(line) + after) == ParseItems(h.(curArgvlen := Announced(line, '$')), after);
  }

  lemma HeaderTaken(pieces: seq<Piece>, rest: string)
    requires pieces != [] && pieces[0].headers != []
    ensures Texts(pieces) + rest == Line(pieces[0].headers[0]) + (Texts(WithoutHeader(pieces)) + rest)
    ensures Items(pieces) == Items(WithoutHeader(pieces))
  {
    var p, fewer := pieces[0], WithoutHeader(pieces);
    assert fewer[1..] == pieces[1..];
    Regroup(Line(p.headers[0]), Lines(p.headers[1..]), Line(p.item), Texts(pieces[1..]), rest);
  }

  lemma Regroup(a: string, b: string, c: string, d: string, e: string)
    ensures a + b + c + d + e == a + (b + c + d + e)
  {
  }

  lemma BodyRead(h: Handler, pieces: seq<Piece>, rest: string)
    requires pieces != [] && |h.argv| < h.argc && h.curArgvlen >= 0 && WellFormed(h.curArgvlen, pieces)
    requires ReadAsItems(h.(argv := h.argv + [pieces[0].item], curArgvlen := -1), pieces[1..], rest)
    ensures ReadAsItems(h, pieces, rest)
  {
    var item, after := pieces[0].item, Texts(pieces[1..]) + rest;
    BodyTaken(pieces, rest, h.argv);
    LineRead(item, after);
    assert ParseItems(h, Line(item) + after) == ParseItems(h.(argv := h.argv + [item], curArgvlen := -1), after);
  }

  lemma BodyTaken(pieces: seq<Piece>, rest: string, done: seq<string>)
    requires pieces != [] && pieces[0].headers == []
    ensures Texts(pieces) + rest == Line(pieces[0].item) + (Texts(pieces[1..]) + rest)
    ensures done + Items(pieces) == done + [pieces[0].item] + Items(pieces[1..])
  {
    BareItem(pieces[0]);
    Associates(Line(pieces[0].item), Texts(pieces[1..]), rest);
    ItemsAssociate(done, pieces[0].item, Items(pieces[1..]));
  }

  lemma BareItem(p: Piece)
    requires p.headers == []
    ensures PieceText(p) == Line(p.item)
  {
    assert "" + Line(p.item) == Line(p.item);
  }

  lemma Associates(a: string, b: string, c: string)
    ensures a + b + c == a + (b + c)
  {
  }

  lemma ItemsAssociate(a: seq<string>, x: string, b: seq<string>)
    ensures a + ([x] + b) == a + [x] + b
  {
  }

  /** And nothing else is: whatever input makes the rest of a request is the text of well-formed pieces,
      one for each item that was missing, followed by what is left over. */
  lemma {:induction false} ReadyPieces(h: Handler, input: string) returns (pieces: seq<Piece>)
    requires |h.argv| < h.argc && ParseItems(h, input).2 == Ready
    ensures var (h', rest, _) := ParseItems(h, input);
      && |pieces| == h.argc - |h.argv| && WellFormed(h.curArgvlen, pieces)
      && input == Texts(pieces) + rest && h' == Handler(h.argc, h.argv + Items(pieces), -1)
    decreases |input|
  {
    var i := Find(input, CRLF);
    LineCut(input);
    var line, after := input[..i], input[i + 2..];
    if h.curArgvlen < 0 {
      var more := ReadyPieces(h.(curArgvlen := Announced(line, '$')), after);
      pieces := [Piece([line] + more[0].headers, more[0].item)] + more[1..];
      HeaderPut(line, more, h.curArgvlen);
      TextGrows(line, after, more, pieces, ParseItems(h, input).1);
    } else {
      var h1 := h.(argv := h.argv + [line], curArgvlen := -1);
      var more := [];
      if |h1.argv| < h1.argc {
        more := ReadyPieces(h1, after);
      }
      pieces := [Piece([], line)] + more;
      BodyPut(line, more, h.argv);
      TextGrows(line, after, more, pieces, ParseItems(h, input).1);
    }
  }

  lemma HeaderPut(line: string, more: seq<Piece>, pending: int)
    requires more != [] && pending < 0 && !HasCrlf(line) && Announces(line, '$') && WellFormed(Announced(line, '$'), more)
    ensures var pieces := [Piece([line] + more[0].headers, more[0].item)] + more[1..];
      WellFormed(pending, pieces) && Texts(pieces) == Line(line) + Texts(more) && Items(pieces) == Items(more)
  {
    var p := Piece([line] + more[0].headers, more[0].item);
    assert p.headers[1..] == more[0].headers;
    assert ([p] + more[1..])[1..] == more[1..];
    assert PieceText(p) == Line(line) + PieceText(more[0]);
    assert PieceText(p) + Texts(more[1..]) == Line(line) + (PieceText(more[0]) + Texts(more[1..]));
  }

  lemma BodyPut(line: string, more: seq<Piece>, done: seq<string>)
    ensures var pieces := [Piece([], line)] + more;
      Texts(pieces) == Line(line) + Texts(more) && done + Items(pieces) == done + [line] + Items(more)
  {
    var p := Piece([], line);
    assert ([p] + more)[1..] == more;
    assert PieceText(p) == Line(line);
  }

  lemma TextGrows(line: string, after: string, more: seq<Piece>, pieces: seq<Piece>, rest: string)
    requires after == Texts(more) + rest && Texts(pieces) == Line(line) + Texts(more)
    ensures Line(line) + after == Texts(pieces) + rest
  {
  }

  /** The count that a first line announces; a negative one wraps around. */
  predicate CountsItems(line: string, n: nat) {
    && Announces(line, '*') && n > 0
    && if Announced(line, '*') >= 0 then n == Announced(line, '*') else n == SIZE_LIMIT + Announced(line, '*')
  }

  /** Between requests, an input is recognised as a request if and only if it is a line that announces
      a count, followed by the text of so many well-formed pieces; the request is then their items,
      each of the length that was announced for it, and what follows is left over. */
  lemma RequestMeans(h: Handler, input: string) returns (line: string, pieces: seq<Piece>)
    requires h.argc == 0 && Parse(h, input).2 == Ready
    ensures var (h', rest, _) := Parse(h, input);
      && !HasCrlf(line) && CountsItems(line, |pieces|) && WellFormed(-1, pieces)
      && input == Line(line) + Texts(pieces) + rest && h' == Handler(|pieces|, Items(pieces), -1)
  {
    var after;
    line, after := CountRead(h, input);
    var h1 := Handler(ToSize(Announced(line, '*')), [], -1);
    pieces := ReadyPieces(h1, after);
    Joined(Line(line), Texts(pieces), Parse(h, input).1, Items(pieces));
  }

  lemma Joined(a: string, b: string, c: string, items: seq<string>)
    ensures a + (b + c) == a + b + c && [] + items == items
  {
  }

  /** A request that is recognised begins with its count. */
  lemma CountRead(h: Handler, input: string) returns (line: string, after: string)
    requires h.argc == 0 && Parse(h, input).2 == Ready
    ensures !HasCrlf(line) && input == Line(line) + after && Announces(line, '*') && Announced(line, '*') != 0
    ensures Parse(h, input) == ParseItems(Handler(ToSize(Announced(line, '*')), [], -1), after)
  {
    var i := Find(input, CRLF);
    LineCut(input);
    line, after := input[..i], input[i + 2..];
  }

  lemma RequestRead(h: Handler, line: string, pieces: seq<Piece>, rest: string)
    requires h.argc == 0 && !HasCrlf(line) && CountsItems(line, |pieces|) && WellFormed(-1, pieces)
    ensures Parse(h, Line(line) + Texts(pieces) + rest) == (Handler(|pieces|, Items(pieces), -1), rest, Ready)
  {
    Associates(Line(line), Texts(pieces), rest);
    CountTaken(h, line, |pieces|, Texts(pieces) + rest);
    PiecesRead(Handler(|pieces|, [], -1), pieces, rest);
    ItemsCounted(pieces);
    AllRead(Items(pieces), rest);
    assert [] + Items(pieces) == Items(pieces);
  }

  lemma CountTaken(h: Handler, line: string, n: nat, after: string)
    requires h.argc == 0 && !HasCrlf(line) && CountsItems(line, n)
    ensures Parse(h, Line(line) + after) == ParseItems(Handler(n, [], -1), after)
  {
    FirstLineTaken(line, n, after);
    LineRead(line, after);
  }

  lemma FirstLineTaken(line: string, n: nat, after: string)
    requires !HasCrlf(line) && CountsItems(line, n)
    ensures CountLine(Line(line) + after) == (Handler(n, [], -1), after, Ready)
  {
    LineRead(line, after);
  }

  lemma AllRead(items: seq<string>, rest: string)
    requires items != []
    ensures ParseItems(Handler(|items|, items, -1), rest) == (Handler(|items|, items, -1), rest, Ready)
  {
  }

  lemma {:induction false} ItemsCounted(pieces: seq<Piece>)
    ensures |Items(pieces)| == |pieces|
  {
    if pieces != [] { ItemsCounted(pieces[1..]); }
  }

  /** When a line is refused, and with which answer: a first line that announces no count, a line that
      should announce a length and does not, and an item of another length than announced. The line is
      dropped but for its end, and the handler awaits a new request. */
  lemma RefusedExactly(h: Handler, line: string, after: string)
    requires !HasCrlf(line)
    ensures var (h', rest, o) := Parse(h, Line(line) + after);
      if h.argc == 0 then
        (!Announces(line, '*') || Announced(line, '*') == 0) ==>
          (h', rest, o) == (Handler(0, [], -1), CRLF + after, Bad(BAD_COUNT))
      else if |h.argv| >= h.argc then h' == h && !o.Bad?
      else if h.curArgvlen < 0 then
        !Announces(line, '$') ==> (h', rest, o) == (Handler(0, h.argv, -1), CRLF + after, Bad(BAD_LENGTH))
      else
        |line| != h.curArgvlen ==> (h', rest, o) == (Handler(0, h.argv, -1), CRLF + after, Bad(BAD_ITEM))
  {
    LineRead(line, after);
  }
}
