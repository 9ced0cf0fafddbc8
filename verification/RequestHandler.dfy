/** A client connection of the cache server: the parser's state and the two buffers, changed in
    place by each read event.
 */
module RequestHandler {
  import opened Buffers
  import opened Resp

  class McachedClientHandler {
    const readBuf: Buffer
    const writeBuf: Buffer
    var argc: nat
    var argv: seq<string>
    var curArgvlen: int

    ghost predicate Valid()
      reads this, readBuf, writeBuf
    {
      readBuf != writeBuf && readBuf.Valid() && writeBuf.Valid() && readBuf.buffer != writeBuf.buffer
    }

    ghost function State(): Handler
      reads this
    {
      Handler(argc, argv, curArgvlen)
    }

    /** `leftover` is whatever the uninitialised curArgvlen_ happens to hold. */
    constructor (leftover: int)
      ensures Valid() && fresh(readBuf) && fresh(writeBuf) && fresh(readBuf.buffer) && fresh(writeBuf.buffer)
      ensures State() == Handler(0, [], leftover) && readBuf.Contents() == "" && writeBuf.Contents() == ""
    {
      readBuf := new Buffer(512);
      writeBuf := new Buffer(512);
      argc, argv, curArgvlen := 0, [], leftover;
    }

    method ReplyString(error: string)
      requires Valid()
      modifies writeBuf, writeBuf.buffer
      ensures Valid() && (writeBuf.buffer == old(writeBuf.buffer) || fresh(writeBuf.buffer))
      ensures writeBuf.Contents() == old(writeBuf.Contents()) + error
      ensures readBuf.Contents() == old(readBuf.Contents())
    {
      writeBuf.Append(error);
    }

    method ReplyBulkString(item: string)
      requires Valid()
      modifies writeBuf, writeBuf.buffer
      ensures Valid() && (writeBuf.buffer == old(writeBuf.buffer) || fresh(writeBuf.buffer))
      ensures writeBuf.Contents() == old(writeBuf.Contents()) + BulkString(item)
    {
      ghost var before := writeBuf.Contents();
      ReplyString("$");
      ReplyString(Decimal(|item|));
      ReplyString(CRLF);
      ReplyString(item);
      ReplyString(CRLF);
      Reassociate(before, "$", Decimal(|item|), CRLF, item, CRLF);
    }

    /** What the connection's read and write sides come to after this outcome. */
    ghost predicate Reached(r: (Handler, string, Outcome), ready: bool, written: string)
      requires Valid()
      reads this, readBuf, writeBuf, readBuf.buffer, writeBuf.buffer
    {
      && (State(), readBuf.Contents()) == (r.0, r.1)
      && ready == r.2.Ready?
      && writeBuf.Contents() == if r.2.Bad? then written + r.2.reply else written
    }

    /** Parses what the read buffer holds; true when a whole request is there. A refusal is
        answered at once. */
    method ParseRedisRequest() returns (ready: bool)
      requires Valid()
      modifies this, readBuf, writeBuf, writeBuf.buffer
      ensures Valid()
      ensures Reached(Parse(old(State()), old(readBuf.Contents())), ready, old(writeBuf.Contents()))
    {
      if readBuf.ReadableBytes() <= 0 {
        return false;
      }
      if argc <= 0 {
        var counted := ParseArgc();
        if !counted {
          return false;
        }
      }
      ready := ParseArgv();
    }

    /** The first line of a request. */
    method ParseArgc() returns (counted: bool)
      requires Valid() && argc == 0
      modifies this, readBuf, writeBuf, writeBuf.buffer
      ensures Valid() && (writeBuf.buffer == old(writeBuf.buffer) || fresh(writeBuf.buffer))
      ensures Reached(CountLine(old(readBuf.Contents())), counted, old(writeBuf.Contents()))
    {
      argv, curArgvlen := [], -1;
      var found, at := readBuf.FindChars(CRLF);
      if !found {
        return false;
      }
      counted := TakeCount(at);
    }

    /** The line that announces the count ends here. */
    method TakeCount(at: nat) returns (counted: bool)
      requires Valid() && State() == Handler(0, [], -1)
      requires at == Find(readBuf.Contents(), CRLF) < |readBuf.Contents()|
      modifies this, readBuf, writeBuf, writeBuf.buffer
      ensures Valid() && (writeBuf.buffer == old(writeBuf.buffer) || fresh(writeBuf.buffer))
      ensures Reached(CountLine(old(readBuf.Contents())), counted, old(writeBuf.Contents()))
    {
      ghost var input := readBuf.Contents();
      var line := readBuf.RetrieveAsString(at);
      var count := if line != "" && line[0] == '*' then ToSize(Announced(line, '*')) else 0;
      if count == 0 {
        ReplyString(BAD_COUNT);
        return false;
      }
      argc := count;
      readBuf.Retrieve(2);
      assert readBuf.Contents() == input[at + 2..];
      return true;
    }

    /** The items of a request, as far as they have arrived. */
    method ParseArgv() returns (ready: bool)
      requires Valid()
      modifies this, readBuf, writeBuf, writeBuf.buffer
      ensures Valid()
      ensures Reached(ParseItems(old(State()), old(readBuf.Contents())), ready, old(writeBuf.Contents()))
    {
      ghost var goal := ParseItems(State(), readBuf.Contents());
      while |argv| < argc
        invariant Valid() && ParseItems(State(), readBuf.Contents()) == goal
        invariant writeBuf.Contents() == old(writeBuf.Contents()) && writeBuf.buffer == old(writeBuf.buffer)
        decreases |readBuf.Contents()|
      {
        var found, at := readBuf.FindChars(CRLF);
        if !found {
          return false;
        }
        var taken := TakeLine(at);
        if !taken {
          return false;
        }
      }
      ready := argc > 0 && |argv| == argc;
    }

    /** One line: an announced length, or an item of that length. */
    method TakeLine(at: nat) returns (taken: bool)
      requires Valid() && at + 2 <= |readBuf.Contents()|
      modifies this, readBuf, writeBuf, writeBuf.buffer
      ensures Valid() && (taken ==> writeBuf.buffer == old(writeBuf.buffer))
      ensures Reached(ItemLine(old(State()), old(readBuf.Contents()), at), taken, old(writeBuf.Contents()))
    {
      ghost var input := readBuf.Contents();
      var line := readBuf.RetrieveAsString(at);
      if curArgvlen < 0 {
        if line == "" || line[0] != '$' {
          curArgvlen, argc := -1, 0;
          ReplyString(BAD_LENGTH);
          return false;
        }
        curArgvlen := Announced(line, '$');
      } else {
        if |line| != curArgvlen {
          curArgvlen, argc := -1, 0;
          ReplyString(BAD_ITEM);
          return false;
        }
        argv, curArgvlen := argv + [line], -1;
      }
      readBuf.Retrieve(2);
      assert input[at..][2..] == input[at + 2..];
      return true;
    }

    /** After a request was executed the handler awaits the next one. */
    method ResetArgcArgv()
      modifies this`argc, this`argv
      ensures State() == Handler(0, [], old(curArgvlen))
    {
      argc, argv := 0, [];
    }

    /** One read event: the bytes that arrived, then the parser. */
    method ReadEvent(incoming: string) returns (ready: bool)
      requires Valid() && |incoming| <= readBuf.WritableBytes() + EXTRA
      modifies this, readBuf, readBuf.buffer, writeBuf, writeBuf.buffer
      ensures Valid()
      ensures Reached(Parse(old(State()), old(readBuf.Contents()) + incoming), ready, old(writeBuf.Contents()))
    {
      var _ := readBuf.ReadFd(incoming, false);
      ready := ParseRedisRequest();
    }
  }

  lemma Reassociate(s: string, a: string, b: string, c: string, d: string, e: string)
    ensures s + a + b + c + d + e == s + (a + b + c + d + e)
  {
  }
}
