/**
 * IDF_Scm_Monotone_Stdio: the connection to a running `mtn automate stdio`
 * process. Each command is written as one frame (StdioFraming) and its
 * reply is read chunk by chunk (StdioChunks). The object keeps the number
 * of the last command written, the frame of that command and the
 * out-of-band output of the last reply.
 *
 * The process itself is represented by what it writes: `stdout` is all it
 * writes to its standard output during the session, `pos` how much of that
 * has been read so far, and `stderr` what reading its standard error would
 * return. `stdin` records every frame written to the process.
 */
module StdioTransport {
  import opened PhpRuntime
  import opened StdioFraming
  import opened StdioChunks

  /** The most bytes one fread() on a pipe hands back. */
  const PipeReadSize: nat := 8192

  function Min(a: nat, b: nat): nat {
    if a <= b then a else b
  }

  class Stdio {
    const stdout: string
    const stderr: string
    /** Whether the process still accepts input; fwrite() fails otherwise. */
    const stdinOpen: bool
    var pos: nat
    var stdin: string
    var cmdnum: int
    var lastcmd: string
    var oob: OutOfBand

    ghost predicate Valid()
      reads this
    {
      pos <= |stdout|
    }

    /** A freshly launched process, before the protocol greeting is read.
        The command counter is PHP's null, which counts as 0. */
    constructor(stdout: string, stderr: string, stdinOpen: bool)
      ensures Valid()
      ensures this.stdout == stdout && this.stderr == stderr && this.stdinOpen == stdinOpen
      ensures pos == 0 && stdin == "" && cmdnum == 0 && lastcmd == "" && oob == NoOutOfBand
    {
      this.stdout := stdout;
      this.stderr := stderr;
      this.stdinOpen := stdinOpen;
      pos := 0;
      stdin := "";
      cmdnum := 0;
      lastcmd := "";
      oob := NoOutOfBand;
    }

    /** The end of start(): the greeting must announce protocol version 2,
        and the command counter is reset to -1 so that the first command
        written is number 0. */
    method Start() returns (r: Outcome)
      requires Valid()
      modifies this
      ensures Valid()
      ensures var v := CheckVersion(stdout, old(pos), stderr);
        if v.Ok? then r == Pass && pos == v.value && cmdnum == -1
        else r == Fail(v.error) && pos == old(pos) && cmdnum == old(cmdnum)
      ensures stdin == old(stdin) && lastcmd == old(lastcmd) && oob == old(oob)
    {
      var v := CheckVersion(stdout, pos, stderr);
      if v.Err? {
        return Fail(v.error);
      }
      pos := v.value;
      cmdnum := -1;
      r := Pass;
    }

    /** _write: builds the frame field by field, sends it, remembers it
        as the last command and counts it. */
    method Write(args: seq<string>, options: Options) returns (r: Outcome)
      modifies this
      ensures stdinOpen ==>
        && r == Pass
        && stdin == old(stdin) + Frame(args, options)
        && lastcmd == Frame(args, options)
        && cmdnum == old(cmdnum) + 1
      ensures !stdinOpen ==>
        && r == Fail(ScmException("could not write '" + Frame(args, options) + "' to process"))
        && stdin == old(stdin) && lastcmd == old(lastcmd) && cmdnum == old(cmdnum)
      ensures pos == old(pos) && oob == old(oob)
    {
      var cmd := "";
      if |options| > 0 {
        cmd := WriteOptionBlock(options);
      }
      var argList := WriteArgList(args);
      cmd := cmd + argList;
      assert cmd == Frame(args, options);
      if !stdinOpen {
        return Fail(ScmException("could not write '" + cmd + "' to process"));
      }
      stdin := stdin + cmd;
      lastcmd := cmd;
      cmdnum := cmdnum + 1;
      r := Pass;
    }

    /** _readStdout: reads one reply; see StdioChunks.ReadReply. The stream
        position moves past what was read and the out-of-band output of
        this reply replaces that of the previous one. */
    method ReadStdout() returns (r: Result<string>)
      requires Valid()
      modifies this
      ensures Valid()
      ensures var reply := ReadReply(stdout, old(pos), cmdnum, lastcmd, stderr);
        r == reply.result && oob == reply.oob && pos == reply.next
      ensures cmdnum == old(cmdnum) && lastcmd == old(lastcmd) && stdin == old(stdin)
    {
      ghost var target := Demux(stdout, pos, cmdnum, "", NoOutOfBand, stderr);
      oob := NoOutOfBand;
      var output := "";
      var errcode := "";
      while true
        invariant pos <= |stdout|
        invariant Demux(stdout, pos, cmdnum, output, oob, stderr) == target
        invariant cmdnum == old(cmdnum) && lastcmd == old(lastcmd) && stdin == old(stdin)
        decreases |stdout| - pos
      {
        var scan := ReadHeader();
        if scan.EndOfInput? {
          pos := |stdout|;
          return Err(NoDataError(stderr));
        }
        var h := scan.header;
        pos := scan.next;
        if !scan.wellFormed {
          return Err(ScmException("malformed chunk header"));
        }
        if cmdnum != h.cmd {
          return Err(OutOfSyncError(cmdnum, h.cmd));
        }
        var buffer := ReadPayload(h.len);
        if buffer.None? {
          pos := |stdout|;
          return Err(ScmException("truncated chunk payload"));
        }
        pos := pos + h.len;
        if IsOutOfBandChannel(h.chan) {
          oob := Deliver(oob, h.chan, buffer.value);
        } else if h.chan == "m" {
          output := output + buffer.value;
        } else if h.chan == "l" {
          errcode := buffer.value;
          break;
        }
      }
      if !IsZeroCode(errcode) {
        return Err(ScmException(ErrorCodeMessage(lastcmd, errcode, oob.e)));
      }
      r := Ok(output);
    }

    /** The header loop of _readStdout: reads one character at a time up
        to the third colon, accumulating the command number, the channel
        and the payload length. */
    method ReadHeader() returns (scan: HeaderScan)
      requires Valid()
      ensures scan == ScanHeader(stdout, pos, 0, EmptyHeader, true)
    {
      var p := pos;
      var idx := 0;
      var h := EmptyHeader;
      var ok := true;
      while true
        invariant pos <= p <= |stdout| && idx <= 2
        invariant ScanHeader(stdout, p, idx, h, ok) == ScanHeader(stdout, pos, 0, EmptyHeader, true)
        decreases |stdout| - p
      {
        if p == |stdout| {
          return EndOfInput;
        }
        var c := stdout[p];
        p := p + 1;
        if c == ':' {
          if idx == 2 {
            return Scanned(h, ok, p);
          }
          idx := idx + 1;
        } else if IsDigit(c) {
          if idx == 0 {
            h := h.(cmd := h.cmd * 10 + DigitValue(c));
          } else if idx == 2 {
            h := h.(len := h.len * 10 + DigitValue(c));
          } else {
            ok := false;
          }
        } else if idx == 1 {
          h := h.(chan := h.chan + [c]);
        } else {
          ok := false;
        }
      }
    }

    /** The payload loop of _readStdout: fread() until `len` bytes are in,
        each read handing back at most what the pipe holds. None when the
        stream ends first. */
    method ReadPayload(len: nat) returns (buffer: Option<string>)
      requires Valid()
      ensures pos + len <= |stdout| ==> buffer == Some(stdout[pos..pos + len])
      ensures pos + len > |stdout| ==> buffer == None
    {
      var p := pos;
      var toRead := len;
      var got := "";
      while toRead > 0
        invariant pos <= p <= |stdout|
        invariant |got| <= len && toRead == len - |got|
        invariant p == pos + |got| && got == stdout[pos..p]
        decreases toRead
      {
        var n := Min(Min(toRead, PipeReadSize), |stdout| - p);
        if n == 0 {
          return None;
        }
        got := got + stdout[p..p + n];
        p := p + n;
        toRead := len - |got|;
      }
      buffer := Some(got);
    }

    /** exec: writes the command and reads its reply. */
    method Exec(args: seq<string>, options: Options) returns (r: Result<string>)
      requires Valid()
      modifies this
      ensures Valid()
      ensures stdinOpen ==>
        var reply := ReadReply(stdout, old(pos), old(cmdnum) + 1, Frame(args, options), stderr);
        && r == reply.result && oob == reply.oob && pos == reply.next
        && stdin == old(stdin) + Frame(args, options)
        && lastcmd == Frame(args, options) && cmdnum == old(cmdnum) + 1
      ensures !stdinOpen ==>
        && r == Err(ScmException("could not write '" + Frame(args, options) + "' to process"))
        && pos == old(pos) && oob == old(oob) && stdin == old(stdin)
        && lastcmd == old(lastcmd) && cmdnum == old(cmdnum)
    {
      var w := Write(args, options);
      if w.Fail? {
        return Err(w.error);
      }
      r := ReadStdout();
    }

    /** getLastOutOfBandOutput: the out-of-band output of the last reply. */
    method LastOutOfBandOutput() returns (o: OutOfBand)
      ensures o == oob
    {
      o := oob;
    }
  }

  /** The options block of _write, built key by key. */
  method WriteOptionBlock(options: Options) returns (cmd: string)
    ensures cmd == "o" + PairFields(OptionPairs(options)) + "e "
  {
    cmd := "o";
    var i := 0;
    while i < |options|
      invariant 0 <= i <= |options|
      invariant cmd == "o" + PairFields(OptionPairs(options[..i]))
    {
      var fields := WriteKeyValues(options[i].0, options[i].1);
      OptionBlockStep(options, i);
      cmd := cmd + fields;
      i := i + 1;
    }
    assert options[..i] == options;
    cmd := cmd + "e ";
  }

  /** One key of the options block: a key field and a value field for
      each of its values (a scalar value is a list of one). */
  method WriteKeyValues(k: string, vals: seq<string>) returns (cmd: string)
    ensures cmd == PairFields(KeyPairs(k, vals))
  {
    cmd := "";
    var j := 0;
    assert KeyPairs(k, vals[..0]) == [];
    while j < |vals|
      invariant 0 <= j <= |vals|
      invariant cmd == PairFields(KeyPairs(k, vals[..j]))
    {
      cmd := cmd + NatToString(|k|) + ":" + k;
      cmd := cmd + NatToString(|vals[j]|) + ":" + vals[j];
      OptionFieldsStep([], k, vals, j);
      assert [] + KeyPairs(k, vals[..j]) == KeyPairs(k, vals[..j]);
      assert [] + KeyPairs(k, vals[..j + 1]) == KeyPairs(k, vals[..j + 1]);
      j := j + 1;
    }
    assert vals[..j] == vals;
  }

  /** The argument list of _write: one length-prefixed field per argument. */
  method WriteArgList(args: seq<string>) returns (cmd: string)
    ensures cmd == "l" + ArgFields(args) + "e\n"
  {
    cmd := "l";
    var i := 0;
    while i < |args|
      invariant 0 <= i <= |args|
      invariant cmd == "l" + ArgFields(args[..i])
    {
      ArgListStep(args, i);
      cmd := cmd + NatToString(|args[i]|) + ":" + args[i];
      i := i + 1;
    }
    assert args[..i] == args;
    cmd := cmd + "e\n";
  }

  /** The argument list after one more argument. */
  lemma ArgListStep(args: seq<string>, i: nat)
    requires i < |args|
    ensures "l" + ArgFields(args[..i]) + NatToString(|args[i]|) + ":" + args[i] == "l" + ArgFields(args[..i + 1])
  {
    assert args[..i + 1] == args[..i] + [args[i]];
    ArgFieldsSnoc(args[..i], args[i]);
  }

  /** The options block after one more key. */
  lemma OptionBlockStep(options: Options, i: nat)
    requires i < |options|
    ensures "o" + PairFields(OptionPairs(options[..i])) + PairFields(KeyPairs(options[i].0, options[i].1))
         == "o" + PairFields(OptionPairs(options[..i + 1]))
  {
    assert options[..i + 1] == options[..i] + [options[i]];
    OptionPairsSnoc(options[..i], options[i]);
    PairFieldsAppend(OptionPairs(options[..i]), KeyPairs(options[i].0, options[i].1));
  }

  /** The option fields after one more value of key `k`. */
  lemma OptionFieldsStep(done: seq<(string, string)>, k: string, vals: seq<string>, j: nat)
    requires j < |vals|
    ensures PairFields(done + KeyPairs(k, vals[..j + 1]))
         == PairFields(done + KeyPairs(k, vals[..j])) + NatToString(|k|) + ":" + k
            + NatToString(|vals[j]|) + ":" + vals[j]
  {
    var before := done + KeyPairs(k, vals[..j]);
    assert KeyPairs(k, vals[..j + 1]) == KeyPairs(k, vals[..j]) + [(k, vals[j])];
    assert done + KeyPairs(k, vals[..j + 1]) == before + [(k, vals[j])];
    PairFieldsAppend(before, [(k, vals[j])]);
    assert PairFields([(k, vals[j])]) == Field(k) + Field(vals[j]) + PairFields([]);
  }
}
