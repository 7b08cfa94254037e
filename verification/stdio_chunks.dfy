/**
 * Replies of monotone's `automate stdio` protocol (format version 2), as
 * IDF_Scm_Monotone_Stdio::_readStdout and ::_checkVersion read them.
 *
 * A reply is a run of chunks `<cmdnum>:<channel>:<length>:<payload>`.
 * Chunks on channel `m` carry the command's main output, chunks on `w`,
 * `p`, `t` and `e` carry out-of-band output (warnings, progress, tickers,
 * errors), and the chunk on channel `l` ends the reply with the command's
 * error code as payload. The functions here read a reply from a position of
 * the process's standard output; the class in StdioTransport runs the same
 * reading as loops over its own state.
 */
module StdioChunks {
  import opened PhpRuntime

  /** Out-of-band output of the last command, one list per channel. */
  datatype OutOfBand = OutOfBand(w: seq<string>, p: seq<string>, t: seq<string>, e: seq<string>)

  const NoOutOfBand := OutOfBand([], [], [], [])

  predicate IsOutOfBandChannel(chan: string) {
    chan == "w" || chan == "p" || chan == "t" || chan == "e"
  }

  /** `oob[chan][] = payload`. */
  function Deliver(oob: OutOfBand, chan: string, payload: string): OutOfBand
    requires IsOutOfBandChannel(chan)
  {
    if chan == "w" then oob.(w := oob.w + [payload])
    else if chan == "p" then oob.(p := oob.p + [payload])
    else if chan == "t" then oob.(t := oob.t + [payload])
    else oob.(e := oob.e + [payload])
  }

  // ---------------------------------------------------------------------
  // Chunk headers

  /** The three header fields: command number, channel, payload length. */
  datatype Header = Header(cmd: nat, chan: string, len: nat)

  const EmptyHeader := Header(0, "", 0)

  /** The outcome of reading a header: the input ended first, or the header
      was read up to its third colon. `wellFormed` is false when a field
      held a character it cannot hold (a non-digit in a number field, a
      digit in the channel field). */
  datatype HeaderScan = EndOfInput | Scanned(header: Header, wellFormed: bool, next: nat)

  /** The header loop of _readStdout: one character per step; `idx` is the
      field being read; a colon moves to the next field and the third
      colon ends the header. */
  function ScanHeader(s: string, pos: nat, idx: nat, h: Header, ok: bool): (r: HeaderScan)
    requires pos <= |s| && idx <= 2
    ensures r.Scanned? ==> pos + 3 - idx <= r.next <= |s|
    decreases |s| - pos
  {
    if pos == |s| then EndOfInput
    else
      var c := s[pos];
      if c == ':' then
        if idx == 2 then Scanned(h, ok, pos + 1) else ScanHeader(s, pos + 1, idx + 1, h, ok)
      else if IsDigit(c) then
        if idx == 0 then ScanHeader(s, pos + 1, idx, h.(cmd := h.cmd * 10 + DigitValue(c)), ok)
        else if idx == 2 then ScanHeader(s, pos + 1, idx, h.(len := h.len * 10 + DigitValue(c)), ok)
        else ScanHeader(s, pos + 1, idx, h, false)
      else if idx == 1 then ScanHeader(s, pos + 1, idx, h.(chan := h.chan + [c]), ok)
      else ScanHeader(s, pos + 1, idx, h, false)
  }

  // ---------------------------------------------------------------------
  // Replies

  /** Where reading a reply stopped: the payload of the `l` chunk or the
      exception thrown, the main and out-of-band output gathered until
      then, and the position after the last byte consumed. */
  datatype Demuxed = Demuxed(code: Result<string>, output: string, oob: OutOfBand, next: nat)

  function NoDataError(stderr: string): Failure {
    ScmException("No data on stdin, stderr is:\n" + stderr)
  }

  function OutOfSyncError(cmdnum: int, got: nat): Failure {
    ScmException("command numbers out of sync; expected " + IntToString(cmdnum) + ", got " + NatToString(got))
  }

  /** The outer loop of _readStdout, chunk by chunk. `stderr` stands for
      what reading the process's standard error (_readStderr) would return. */
  function Demux(s: string, pos: nat, cmdnum: int, output: string, oob: OutOfBand, stderr: string): (r: Demuxed)
    requires pos <= |s|
    ensures pos <= r.next <= |s|
    decreases |s| - pos
  {
    match ScanHeader(s, pos, 0, EmptyHeader, true)
    case EndOfInput => Demuxed(Err(NoDataError(stderr)), output, oob, |s|)
    case Scanned(h, ok, p) =>
      if !ok then Demuxed(Err(ScmException("malformed chunk header")), output, oob, p)
      else if cmdnum != h.cmd then Demuxed(Err(OutOfSyncError(cmdnum, h.cmd)), output, oob, p)
      else if p + h.len > |s| then Demuxed(Err(ScmException("truncated chunk payload")), output, oob, |s|)
      else
        var payload := s[p..p + h.len];
        var next := p + h.len;
        if IsOutOfBandChannel(h.chan) then Demux(s, next, cmdnum, output, Deliver(oob, h.chan, payload), stderr)
        else if h.chan == "m" then Demux(s, next, cmdnum, output + payload, oob, stderr)
        else if h.chan == "l" then Demuxed(Ok(payload), output, oob, next)
        else Demux(s, next, cmdnum, output, oob, stderr)
  }

  /** `$errcode != 0` for the decimal codes monotone sends. */
  predicate IsZeroCode(code: string) {
    |code| > 0 && forall i :: 0 <= i < |code| ==> code[i] == '0'
  }

  /** The outcome of _readStdout: the main output or the exception, the
      out-of-band output it leaves behind, and where reading stopped. */
  datatype Reply = Reply(result: Result<string>, oob: OutOfBand, next: nat)

  function ErrorCodeMessage(lastcmd: string, code: string, errors: seq<string>): string {
    "command '" + lastcmd + "' returned error code " + code + ": " + Implode(" ", errors)
  }

  /** _readStdout: out-of-band output starts empty, chunks are read until
      the `l` chunk, and a non-zero code becomes an exception naming the
      command and the text of the error channel. */
  function ReadReply(s: string, pos: nat, cmdnum: int, lastcmd: string, stderr: string): (r: Reply)
    requires pos <= |s|
    ensures pos <= r.next <= |s|
  {
    var d := Demux(s, pos, cmdnum, "", NoOutOfBand, stderr);
    if d.code.Err? then Reply(Err(d.code.error), d.oob, d.next)
    else if !IsZeroCode(d.code.value) then
      Reply(Err(ScmException(ErrorCodeMessage(lastcmd, d.code.value, d.oob.e))), d.oob, d.next)
    else Reply(Ok(d.output), d.oob, d.next)
  }

  // ---------------------------------------------------------------------
  // The chunks monotone writes

  /** One chunk as monotone sends it. */
  datatype Chunk = Chunk(cmd: nat, chan: string, payload: string)

  /** A channel name the header loop reads back unchanged. */
  predicate IsChannelName(chan: string) {
    forall i :: 0 <= i < |chan| ==> chan[i] != ':' && !IsDigit(chan[i])
  }

  function HeaderText(c: Chunk): string {
    NatToString(c.cmd) + (":" + (c.chan + (":" + (NatToString(|c.payload|) + ":"))))
  }

  function EncodeChunk(c: Chunk): string {
    HeaderText(c) + c.payload
  }

  function EncodeChunks(cs: seq<Chunk>): string {
    if cs == [] then "" else EncodeChunk(cs[0]) + EncodeChunks(cs[1..])
  }

  /** The payloads of the chunks on channel `chan`, in order. */
  function ChannelPayloads(cs: seq<Chunk>, chan: string): (r: seq<string>)
    ensures |r| <= |cs|
  {
    if cs == [] then []
    else (if cs[0].chan == chan then [cs[0].payload] else []) + ChannelPayloads(cs[1..], chan)
  }

  /** The chunks of one reply before its `l` chunk, all for command `cmdnum`. */
  predicate IsReplyBody(cs: seq<Chunk>, cmdnum: int) {
    forall i :: 0 <= i < |cs| ==> cs[i].cmd == cmdnum && IsChannelName(cs[i].chan) && cs[i].chan != "l"
  }

  // ---------------------------------------------------------------------
  // Reading back what monotone writes

  lemma ScanCmdDigits(s: string, start: nat, d: string, k: nat, h: Header, ok: bool)
    requires start + |d| <= |s| && s[start..start + |d|] == d && AllDigits(d) && k <= |d|
    ensures ScanHeader(s, start + k, 0, h.(cmd := DigitsValue(d[..k])), ok)
         == ScanHeader(s, start + |d|, 0, h.(cmd := DigitsValue(d)), ok)
    decreases |d| - k
  {
    if k < |d| {
      assert s[start + k] == d[k];
      assert d[..k + 1] == d[..k] + [d[k]];
      DigitsValueSnoc(d[..k], d[k]);
      ScanCmdDigits(s, start, d, k + 1, h, ok);
    } else {
      assert d[..k] == d;
    }
  }

  lemma ScanLenDigits(s: string, start: nat, d: string, k: nat, h: Header, ok: bool)
    requires start + |d| <= |s| && s[start..start + |d|] == d && AllDigits(d) && k <= |d|
    ensures ScanHeader(s, start + k, 2, h.(len := DigitsValue(d[..k])), ok)
         == ScanHeader(s, start + |d|, 2, h.(len := DigitsValue(d)), ok)
    decreases |d| - k
  {
    if k < |d| {
      assert s[start + k] == d[k];
      assert d[..k + 1] == d[..k] + [d[k]];
      DigitsValueSnoc(d[..k], d[k]);
      ScanLenDigits(s, start, d, k + 1, h, ok);
    } else {
      assert d[..k] == d;
    }
  }

  lemma ScanChannel(s: string, start: nat, chan: string, k: nat, h: Header, ok: bool)
    requires start + |chan| <= |s| && s[start..start + |chan|] == chan && IsChannelName(chan) && k <= |chan|
    ensures ScanHeader(s, start + k, 1, h.(chan := chan[..k]), ok)
         == ScanHeader(s, start + |chan|, 1, h.(chan := chan), ok)
    decreases |chan| - k
  {
    if k < |chan| {
      assert s[start + k] == chan[k];
      assert chan[..k + 1] == chan[..k] + [chan[k]];
      ScanChannel(s, start, chan, k + 1, h, ok);
    } else {
      assert chan[..k] == chan;
    }
  }

  /** The command number field, read from the start of a header. */
  lemma ScanCmdField(s: string, start: nat, d: string)
    requires start + |d| <= |s| && s[start..start + |d|] == d && AllDigits(d)
    ensures ScanHeader(s, start, 0, EmptyHeader, true)
         == ScanHeader(s, start + |d|, 0, Header(DigitsValue(d), "", 0), true)
  {
    assert d[..0] == [];
    ScanCmdDigits(s, start, d, 0, EmptyHeader, true);
  }

  /** The channel field, read after the first colon. */
  lemma ScanChannelField(s: string, start: nat, chan: string, cmd: nat)
    requires start + |chan| <= |s| && s[start..start + |chan|] == chan && IsChannelName(chan)
    ensures ScanHeader(s, start, 1, Header(cmd, "", 0), true)
         == ScanHeader(s, start + |chan|, 1, Header(cmd, chan, 0), true)
  {
    assert chan[..0] == [];
    ScanChannel(s, start, chan, 0, Header(cmd, "", 0), true);
  }

  /** The length field, read after the second colon. */
  lemma ScanLenField(s: string, start: nat, d: string, cmd: nat, chan: string)
    requires start + |d| <= |s| && s[start..start + |d|] == d && AllDigits(d)
    ensures ScanHeader(s, start, 2, Header(cmd, chan, 0), true)
         == ScanHeader(s, start + |d|, 2, Header(cmd, chan, DigitsValue(d)), true)
  {
    assert d[..0] == [];
    ScanLenDigits(s, start, d, 0, Header(cmd, chan, 0), true);
  }

  /** A colon at `pos` moves the header loop to the next field. */
  lemma ScanColon(s: string, pos: nat, idx: nat, h: Header, rest: string)
    requires idx < 2 && pos + |":" + rest| <= |s| && s[pos..pos + |":" + rest|] == ":" + rest
    ensures ScanHeader(s, pos, idx, h, true) == ScanHeader(s, pos + 1, idx + 1, h, true)
    ensures s[pos + 1..pos + 1 + |rest|] == rest
  {
    Peel(s, pos, ":", rest);
    assert s[pos] == s[pos..pos + 1][0];
  }

  /** A colon before the third field moves the header loop on. */
  lemma ColonAt(s: string, pos: nat, idx: nat, h: Header)
    requires pos < |s| && s[pos] == ':' && idx < 2
    ensures ScanHeader(s, pos, idx, h, true) == ScanHeader(s, pos + 1, idx + 1, h, true)
  {
  }

  /** The command number field, from `pos` to the colon at `a`. */
  lemma CmdPart(s: string, pos: nat, a: nat, d: string)
    requires a == pos + |d| && a < |s| && s[pos..a] == d && AllDigits(d) && s[a] == ':'
    ensures ScanHeader(s, pos, 0, EmptyHeader, true)
         == ScanHeader(s, a + 1, 1, Header(DigitsValue(d), "", 0), true)
  {
    ScanCmdField(s, pos, d);
    ColonAt(s, a, 0, Header(DigitsValue(d), "", 0));
  }

  /** The channel field, from `start` to the colon at `b`. */
  lemma ChanPart(s: string, start: nat, b: nat, chan: string, cmd: nat)
    requires b == start + |chan| && b < |s| && s[start..b] == chan && IsChannelName(chan) && s[b] == ':'
    ensures ScanHeader(s, start, 1, Header(cmd, "", 0), true)
         == ScanHeader(s, b + 1, 2, Header(cmd, chan, 0), true)
  {
    ScanChannelField(s, start, chan, cmd);
    ColonAt(s, b, 1, Header(cmd, chan, 0));
  }

  /** The length field, from `start` to the colon at `e` that ends the
      header. */
  lemma LenPart(s: string, start: nat, e: nat, d: string, cmd: nat, chan: string)
    requires e == start + |d| && e < |s| && s[start..e] == d && AllDigits(d) && s[e] == ':'
    ensures ScanHeader(s, start, 2, Header(cmd, chan, 0), true)
         == Scanned(Header(cmd, chan, DigitsValue(d)), true, e + 1)
  {
    ScanLenField(s, start, d, cmd, chan);
  }

  /** A header laid out field by field, with colons at `a`, `b` and `e`,
      reads back as its three fields. */
  lemma ScanHeaderFields(s: string, pos: nat, a: nat, b: nat, e: nat, d1: string, chan: string, d2: string)
    requires AllDigits(d1) && AllDigits(d2) && IsChannelName(chan)
    requires a == pos + |d1| && b == a + 1 + |chan| && e == b + 1 + |d2| && e < |s|
    requires s[pos..a] == d1 && s[a] == ':' && s[a + 1..b] == chan && s[b] == ':'
    requires s[b + 1..e] == d2 && s[e] == ':'
    ensures ScanHeader(s, pos, 0, EmptyHeader, true)
         == Scanned(Header(DigitsValue(d1), chan, DigitsValue(d2)), true, e + 1)
  {
    CmdPart(s, pos, a, d1);
    ChanPart(s, a + 1, b, chan, DigitsValue(d1));
    LenPart(s, b + 1, e, d2, DigitsValue(d1), chan);
  }

  /** A field, a colon and what follows, in a row. */
  lemma FieldColon(s: string, i: nat, x: string, rest: string)
    requires i + |x + (":" + rest)| <= |s| && s[i..i + |x + (":" + rest)|] == x + (":" + rest)
    ensures s[i..i + |x|] == x && s[i + |x|] == ':'
    ensures s[i + |x| + 1..i + |x| + 1 + |rest|] == rest
  {
    Peel(s, i, x, ":" + rest);
    Peel(s, i + |x|, ":", rest);
    assert s[i + |x|] == s[i + |x|..i + |x| + 1][0];
  }

  /** A last field and its colon. */
  lemma FieldEnd(s: string, i: nat, x: string)
    requires i + |x + ":"| <= |s| && s[i..i + |x + ":"|] == x + ":"
    ensures s[i..i + |x|] == x && s[i + |x|] == ':'
  {
    Peel(s, i, x, ":");
    assert s[i + |x|] == s[i + |x|..i + |x| + 1][0];
  }

  /** Where the fields and the colons of a header sit. */
  lemma HeaderLayout(s: string, pos: nat, d1: string, chan: string, d2: string)
    requires var t := d1 + (":" + (chan + (":" + (d2 + ":"))));
      pos + |t| <= |s| && s[pos..pos + |t|] == t
    ensures var a := pos + |d1|; var b := a + 1 + |chan|; var e := b + 1 + |d2|;
      && s[pos..a] == d1 && s[a] == ':' && s[a + 1..b] == chan && s[b] == ':'
      && s[b + 1..e] == d2 && s[e] == ':'
  {
    var r3 := d2 + ":";
    var r2 := chan + (":" + r3);
    var a := pos + |d1|;
    var b := a + 1 + |chan|;
    FieldColon(s, pos, d1, r2);
    FieldColon(s, a + 1, chan, r3);
    FieldEnd(s, b + 1, d2);
  }

  /** A header as monotone writes it reads back as its three fields. */
  lemma ScanHeaderOf(s: string, pos: nat, c: Chunk)
    requires pos + |HeaderText(c)| <= |s| && s[pos..pos + |HeaderText(c)|] == HeaderText(c)
    requires IsChannelName(c.chan)
    ensures ScanHeader(s, pos, 0, EmptyHeader, true)
         == Scanned(Header(c.cmd, c.chan, |c.payload|), true, pos + |HeaderText(c)|)
  {
    var d1 := NatToString(c.cmd);
    var d2 := NatToString(|c.payload|);
    var a := pos + |d1|;
    var b := a + 1 + |c.chan|;
    var e := b + 1 + |d2|;
    HeaderLayout(s, pos, d1, c.chan, d2);
    ScanHeaderFields(s, pos, a, b, e, d1, c.chan, d2);
  }

  /** The third colon ends the header. */
  lemma ScanEnd(s: string, e: nat, h: Header)
    requires e < |s| && s[e..e + 1] == ":"
    ensures ScanHeader(s, e, 2, h, true) == Scanned(h, true, e + 1)
  {
    assert s[e] == s[e..e + 1][0];
  }

  /** The first chunk of `s[pos..]` as Demux sees it. */
  lemma ChunkAt(s: string, pos: nat, c: Chunk)
    requires pos + |EncodeChunk(c)| <= |s| && s[pos..pos + |EncodeChunk(c)|] == EncodeChunk(c)
    requires IsChannelName(c.chan)
    ensures ScanHeader(s, pos, 0, EmptyHeader, true)
         == Scanned(Header(c.cmd, c.chan, |c.payload|), true, pos + |HeaderText(c)|)
    ensures s[pos + |HeaderText(c)|..pos + |EncodeChunk(c)|] == c.payload
  {
    var t := EncodeChunk(c);
    SubSlice(s, pos, t, 0, |HeaderText(c)|);
    assert t[..|HeaderText(c)|] == HeaderText(c);
    SubSlice(s, pos, t, |HeaderText(c)|, |t|);
    assert t[|HeaderText(c)|..] == c.payload;
    ScanHeaderOf(s, pos, c);
  }

  /** Where the first chunk and the remaining chunks sit. */
  lemma ChunksSplit(s: string, pos: nat, cs: seq<Chunk>, tail: string)
    requires cs != []
    requires pos + |EncodeChunks(cs) + tail| <= |s| && s[pos..pos + |EncodeChunks(cs) + tail|] == EncodeChunks(cs) + tail
    ensures var n := |EncodeChunk(cs[0])|;
      && |EncodeChunks(cs) + tail| == n + |EncodeChunks(cs[1..]) + tail|
      && s[pos..pos + n] == EncodeChunk(cs[0])
      && s[pos + n..pos + n + |EncodeChunks(cs[1..]) + tail|] == EncodeChunks(cs[1..]) + tail
  {
    var t := EncodeChunks(cs) + tail;
    var n := |EncodeChunk(cs[0])|;
    assert t == EncodeChunk(cs[0]) + (EncodeChunks(cs[1..]) + tail);
    SubSlice(s, pos, t, 0, n);
    assert t[..n] == EncodeChunk(cs[0]);
    SubSlice(s, pos, t, n, |t|);
    assert t[n..] == EncodeChunks(cs[1..]) + tail;
  }

  /** The main output after one more chunk. */
  function AbsorbOutput(output: string, c: Chunk): string {
    output + (if c.chan == "m" then c.payload else "")
  }

  /** The out-of-band output after one more chunk. */
  function AbsorbOob(oob: OutOfBand, c: Chunk): OutOfBand {
    if IsOutOfBandChannel(c.chan) then Deliver(oob, c.chan, c.payload) else oob
  }

  /** `oob` with the out-of-band payloads of `cs` appended, channel by channel. */
  function Gathered(oob: OutOfBand, cs: seq<Chunk>): OutOfBand {
    OutOfBand(oob.w + ChannelPayloads(cs, "w"), oob.p + ChannelPayloads(cs, "p"),
              oob.t + ChannelPayloads(cs, "t"), oob.e + ChannelPayloads(cs, "e"))
  }

  /** One step of Demux over a chunk that does not end the reply. */
  lemma DemuxStep(s: string, pos: nat, cmdnum: int, output: string, oob: OutOfBand, stderr: string, c: Chunk)
    requires pos + |EncodeChunk(c)| <= |s| && s[pos..pos + |EncodeChunk(c)|] == EncodeChunk(c)
    requires c.cmd == cmdnum && IsChannelName(c.chan) && c.chan != "l"
    ensures Demux(s, pos, cmdnum, output, oob, stderr)
         == Demux(s, pos + |EncodeChunk(c)|, cmdnum, AbsorbOutput(output, c), AbsorbOob(oob, c), stderr)
  {
    ChunkAt(s, pos, c);
    if c.chan != "m" {
      assert output + "" == output;
    }
  }

  /** The `l` chunk ends the reply with its payload as code. */
  lemma DemuxLast(s: string, pos: nat, cmdnum: nat, output: string, oob: OutOfBand, stderr: string, code: string)
    requires var t := EncodeChunk(Chunk(cmdnum, "l", code));
      pos + |t| <= |s| && s[pos..pos + |t|] == t
    ensures Demux(s, pos, cmdnum, output, oob, stderr)
         == Demuxed(Ok(code), output, oob, pos + |EncodeChunk(Chunk(cmdnum, "l", code))|)
  {
    ChunkAt(s, pos, Chunk(cmdnum, "l", code));
  }

  /** Absorbing the first chunk, then the rest, gathers the same main
      output as gathering all chunks at once. */
  lemma MainOutputCons(output: string, cs: seq<Chunk>)
    requires cs != []
    ensures AbsorbOutput(output, cs[0]) + Concat(ChannelPayloads(cs[1..], "m"))
         == output + Concat(ChannelPayloads(cs, "m"))
  {
    var c := cs[0];
    var rest := ChannelPayloads(cs[1..], "m");
    if c.chan == "m" {
      assert ChannelPayloads(cs, "m") == [c.payload] + rest;
      assert ([c.payload] + rest)[1..] == rest;
      assert Concat(ChannelPayloads(cs, "m")) == c.payload + Concat(rest);
    } else {
      assert ChannelPayloads(cs, "m") == rest by {
        assert [] + rest == rest;
      }
      assert AbsorbOutput(output, c) == output;
    }
  }

  /** The same for each out-of-band channel. */
  lemma GatheredCons(oob: OutOfBand, cs: seq<Chunk>)
    requires cs != []
    ensures Gathered(AbsorbOob(oob, cs[0]), cs[1..]) == Gathered(oob, cs)
  {
    var c := cs[0];
    var rest := cs[1..];
    if c.chan == "w" {
      assert ChannelPayloads(cs, "w") == [c.payload] + ChannelPayloads(rest, "w");
    } else if c.chan == "p" {
      assert ChannelPayloads(cs, "p") == [c.payload] + ChannelPayloads(rest, "p");
    } else if c.chan == "t" {
      assert ChannelPayloads(cs, "t") == [c.payload] + ChannelPayloads(rest, "t");
    } else if c.chan == "e" {
      assert ChannelPayloads(cs, "e") == [c.payload] + ChannelPayloads(rest, "e");
    }
  }

  /** Reading a reply body followed by its `l` chunk gathers the main
      output and each out-of-band channel in the order they were sent,
      and stops right after the `l` chunk with its payload as code. */
  lemma {:induction false} DemuxOf(s: string, pos: nat, cmdnum: nat, output: string, oob: OutOfBand,
                                  stderr: string, cs: seq<Chunk>, code: string)
    requires IsReplyBody(cs, cmdnum)
    requires var t := EncodeChunks(cs) + EncodeChunk(Chunk(cmdnum, "l", code));
      pos + |t| <= |s| && s[pos..pos + |t|] == t
    ensures Demux(s, pos, cmdnum, output, oob, stderr)
         == Demuxed(Ok(code), output + Concat(ChannelPayloads(cs, "m")), Gathered(oob, cs),
                    pos + |EncodeChunks(cs) + EncodeChunk(Chunk(cmdnum, "l", code))|)
    decreases |cs|, 1
  {
    if cs == [] {
      var l := EncodeChunk(Chunk(cmdnum, "l", code));
      assert EncodeChunks(cs) + l == l;
      DemuxLast(s, pos, cmdnum, output, oob, stderr, code);
      assert output + Concat([]) == output;
      assert Gathered(oob, cs) == oob;
    } else {
      DemuxOfCons(s, pos, cmdnum, output, oob, stderr, cs, code);
    }
  }

  /** DemuxOf when a chunk precedes the `l` chunk. */
  lemma {:induction false} DemuxOfCons(s: string, pos: nat, cmdnum: nat, output: string, oob: OutOfBand,
                                      stderr: string, cs: seq<Chunk>, code: string)
    requires cs != [] && IsReplyBody(cs, cmdnum)
    requires var t := EncodeChunks(cs) + EncodeChunk(Chunk(cmdnum, "l", code));
      pos + |t| <= |s| && s[pos..pos + |t|] == t
    ensures Demux(s, pos, cmdnum, output, oob, stderr)
         == Demuxed(Ok(code), output + Concat(ChannelPayloads(cs, "m")), Gathered(oob, cs),
                    pos + |EncodeChunks(cs) + EncodeChunk(Chunk(cmdnum, "l", code))|)
    decreases |cs|, 0
  {
    var l := EncodeChunk(Chunk(cmdnum, "l", code));
    var c := cs[0];
    var rest := cs[1..];
    var next := pos + |EncodeChunk(c)|;
    var output' := AbsorbOutput(output, c);
    var oob' := AbsorbOob(oob, c);
    assert IsReplyBody(rest, cmdnum) by {
      forall i | 0 <= i < |rest| ensures rest[i] == cs[i + 1] { }
    }
    assert Demux(s, pos, cmdnum, output, oob, stderr) == Demux(s, next, cmdnum, output', oob', stderr)
        && |EncodeChunks(cs) + l| == |EncodeChunk(c)| + |EncodeChunks(rest) + l|
        && s[next..next + |EncodeChunks(rest) + l|] == EncodeChunks(rest) + l by {
      ChunksSplit(s, pos, cs, l);
      DemuxStep(s, pos, cmdnum, output, oob, stderr, c);
    }
    assert Demux(s, next, cmdnum, output', oob', stderr)
        == Demuxed(Ok(code), output' + Concat(ChannelPayloads(rest, "m")), Gathered(oob', rest),
                   next + |EncodeChunks(rest) + l|) by {
      DemuxOf(s, next, cmdnum, output', oob', stderr, rest, code);
    }
    MainOutputCons(output, cs);
    GatheredCons(oob, cs);
  }

  /** _readStdout on a complete reply with code "0" returns the main
      output, and the out-of-band output holds exactly the payloads of each
      out-of-band channel, in order. */
  lemma ReadReplySuccess(s: string, pos: nat, cmdnum: nat, lastcmd: string, stderr: string,
                         cs: seq<Chunk>, code: string)
    requires IsReplyBody(cs, cmdnum) && IsZeroCode(code)
    requires var t := EncodeChunks(cs) + EncodeChunk(Chunk(cmdnum, "l", code));
      pos + |t| <= |s| && s[pos..pos + |t|] == t
    ensures var r := ReadReply(s, pos, cmdnum, lastcmd, stderr);
      && r.result == Ok(Concat(ChannelPayloads(cs, "m")))
      && r.oob == Gathered(NoOutOfBand, cs)
      && r.next == pos + |EncodeChunks(cs) + EncodeChunk(Chunk(cmdnum, "l", code))|
  {
    DemuxOf(s, pos, cmdnum, "", NoOutOfBand, stderr, cs, code);
    assert "" + Concat(ChannelPayloads(cs, "m")) == Concat(ChannelPayloads(cs, "m"));
  }

  /** A complete reply with a non-zero code makes _readStdout throw an
      exception naming the command frame, the code and the error channel's
      payloads joined by spaces; the out-of-band output is still kept. */
  lemma ReadReplyFailure(s: string, pos: nat, cmdnum: nat, lastcmd: string, stderr: string,
                         cs: seq<Chunk>, code: string)
    requires IsReplyBody(cs, cmdnum) && !IsZeroCode(code)
    requires var t := EncodeChunks(cs) + EncodeChunk(Chunk(cmdnum, "l", code));
      pos + |t| <= |s| && s[pos..pos + |t|] == t
    ensures var r := ReadReply(s, pos, cmdnum, lastcmd, stderr);
      && r.result == Err(ScmException(ErrorCodeMessage(lastcmd, code, ChannelPayloads(cs, "e"))))
      && r.oob.e == ChannelPayloads(cs, "e")
  {
    DemuxOf(s, pos, cmdnum, "", NoOutOfBand, stderr, cs, code);
    assert NoOutOfBand.e + ChannelPayloads(cs, "e") == ChannelPayloads(cs, "e");
  }

  /** A chunk for another command number makes _readStdout throw before
      any of its payload is read. */
  lemma ReadReplyOutOfSync(s: string, pos: nat, cmdnum: int, lastcmd: string, stderr: string, c: Chunk)
    requires pos + |EncodeChunk(c)| <= |s| && s[pos..pos + |EncodeChunk(c)|] == EncodeChunk(c)
    requires IsChannelName(c.chan) && c.cmd != cmdnum
    ensures ReadReply(s, pos, cmdnum, lastcmd, stderr)
         == Reply(Err(OutOfSyncError(cmdnum, c.cmd)), NoOutOfBand, pos + |HeaderText(c)|)
  {
    ChunkAt(s, pos, c);
  }

  /** With nothing left to read, _readStdout throws and reports stderr. */
  lemma ReadReplyNoData(s: string, cmdnum: int, lastcmd: string, stderr: string)
    ensures ReadReply(s, |s|, cmdnum, lastcmd, stderr).result == Err(NoDataError(stderr))
  {
  }

  // ---------------------------------------------------------------------
  // The protocol greeting

  const SupportedStdioVersion: nat := 2

  /** fgets(): the line starting at `pos`, newline included, and the position
      after it: it runs to the first newline, or to the end when there is none. */
  function ReadLine(s: string, pos: nat): (r: (string, nat))
    requires pos < |s|
    ensures pos < r.1 <= |s| && r.0 == s[pos..r.1]
    ensures forall i :: pos <= i < r.1 - 1 ==> s[i] != '\n'
    ensures r.1 < |s| ==> s[r.1 - 1] == '\n'
  {
    var k := IndexOf(s, '\n', pos);
    if k < |s| then (s[pos..k + 1], k + 1) else (s[pos..], |s|)
  }

  const VersionPrefix := "format-version: "

  /** The version digits when `line` matches /^format-version: (\d+)$/;
      `$` also matches before a final newline. */
  function VersionDigits(line: string): (r: Option<string>)
    ensures r.Some? ==> (|r.value| > 0 && AllDigits(r.value)
      && (line == VersionPrefix + r.value || line == VersionPrefix + r.value + "\n"))
  {
    var body := if |line| > 0 && line[|line| - 1] == '\n' then line[..|line| - 1] else line;
    if StartsWith(body, VersionPrefix) && |body| > |VersionPrefix| && AllDigits(body[|VersionPrefix|..]) then
      assert body == VersionPrefix + body[|VersionPrefix|..];
      Some(body[|VersionPrefix|..])
    else None
  }

  /** _checkVersion: the first line must announce version 2; the line after
      it is skipped. Yields the position where the first reply starts. */
  function CheckVersion(s: string, pos: nat, stderr: string): (r: Result<nat>)
    requires pos <= |s|
    ensures r.Ok? ==> pos < r.value <= |s|
  {
    if pos == |s| then Err(ScmException("Could not determine stdio version, stderr is:\n" + stderr))
    else
      var (line, next) := ReadLine(s, pos);
      var m := VersionDigits(line);
      if m.None? || DigitsValue(m.value) != SupportedStdioVersion then
        Err(ScmException("stdio format version mismatch, expected '2', got '"
                         + (if m.Some? then m.value else "") + "'"))
      else if next == |s| then Ok(next)
      else Ok(ReadLine(s, next).1)
  }

  /** The greeting monotone sends is accepted, and reading starts after it. */
  lemma CheckVersionAccepts(rest: string, stderr: string)
    ensures CheckVersion("format-version: 2\n\n" + rest, 0, stderr) == Ok(19)
  {
    var s := "format-version: 2\n\n" + rest;
    var line := "format-version: 2\n";
    assert s[..17] == "format-version: 2";
    IndexOfAfter(s, "format-version: 2", '\n');
    assert s[0..18] == line;
    assert line[..17] == "format-version: 2";
    assert VersionDigits(line) == Some("2");
    assert IndexOf(s, '\n', 18) == 18;
  }

  /** The first line of a greeting announcing version `d`. */
  lemma GreetingLine(d: string, rest: string)
    requires |d| > 0 && AllDigits(d)
    ensures var s := VersionPrefix + d + "\n" + rest;
      ReadLine(s, 0) == (VersionPrefix + d + "\n", |VersionPrefix + d| + 1)
  {
    var x := VersionPrefix + d;
    var s := x + ("\n" + rest);
    assert s == VersionPrefix + d + "\n" + rest;
    assert '\n' !in VersionPrefix;
    assert '\n' !in d by {
      forall i | 0 <= i < |d| ensures d[i] != '\n' {
        assert IsDigit(d[i]);
      }
    }
    assert s[..|x|] == x;
    IndexOfAfter(s, x, '\n');
    assert s[..|x| + 1] == x + "\n";
  }

  /** A greeting line announcing version `d` matches, with `d` as the version. */
  lemma GreetingDigits(d: string)
    requires |d| > 0 && AllDigits(d)
    ensures VersionDigits(VersionPrefix + d + "\n") == Some(d)
  {
    var x := VersionPrefix + d;
    var line := x + "\n";
    assert line[..|line| - 1] == x;
    assert x[..|VersionPrefix|] == VersionPrefix;
    assert x[|VersionPrefix|..] == d;
  }

  /** Any other announced version is refused, quoting the version seen. */
  lemma CheckVersionRefuses(d: string, rest: string, stderr: string)
    requires |d| > 0 && AllDigits(d) && DigitsValue(d) != 2
    ensures CheckVersion(VersionPrefix + d + "\n" + rest, 0, stderr)
         == Err(ScmException("stdio format version mismatch, expected '2', got '" + d + "'"))
  {
    GreetingLine(d, rest);
    GreetingDigits(d);
  }

  /** A line that matches starts with the version prefix. */
  lemma MatchedLineHasPrefix(s: string, pos: nat)
    requires pos < |s|
    ensures VersionDigits(ReadLine(s, pos).0).Some? ==> StartsWith(s[pos..], VersionPrefix)
  {
    var (line, next) := ReadLine(s, pos);
    if VersionDigits(line).Some? {
      var k := |VersionPrefix|;
      assert line[..k] == VersionPrefix;
      assert s[pos..][..k] == s[pos..pos + k] == line[..k];
    }
  }

  /** A first line that does not start with the version prefix is refused,
      quoting no version. */
  lemma CheckVersionRefusesOtherGreeting(s: string, pos: nat, stderr: string)
    requires pos < |s| && !StartsWith(s[pos..], VersionPrefix)
    ensures CheckVersion(s, pos, stderr)
         == Err(ScmException("stdio format version mismatch, expected '2', got ''"))
  {
    MatchedLineHasPrefix(s, pos);
    assert "stdio format version mismatch, expected '2', got '" + "" + "'"
        == "stdio format version mismatch, expected '2', got ''";
  }
}
