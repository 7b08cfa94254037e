/**
 * Command framing of monotone's `automate stdio` protocol (format version 2),
 * as IDF_Scm_Monotone_Stdio::_write produces it:
 *
 *   [ o <len>:<key><len>:<value> ... e␠ ] l <len>:<arg> ... e\n
 *
 * The options block is present exactly when at least one option key is
 * given, and carries one key/value field pair per value. Lengths are byte
 * counts in decimal. A decoder for the same format shows that a frame
 * carries its arguments and options without loss.
 */
module StdioFraming {
  import opened PhpRuntime

  /** Option keys in the order given, each with the list of its values.
      A scalar option value in the source is a one-element list here. */
  type Options = seq<(string, seq<string>)>

  /** `<len>:<s>`: one length-prefixed string. */
  function Field(s: string): string {
    NatToString(|s|) + ":" + s
  }

  /** The argument fields, in order. */
  function ArgFields(args: seq<string>): string {
    if args == [] then "" else Field(args[0]) + ArgFields(args[1..])
  }

  /** One key with each of its values, as key/value pairs. */
  function KeyPairs(key: string, values: seq<string>): (ps: seq<(string, string)>)
    ensures |ps| == |values|
    ensures forall j :: 0 <= j < |values| ==> ps[j] == (key, values[j])
  {
    if values == [] then [] else [(key, values[0])] + KeyPairs(key, values[1..])
  }

  /** The flat list of key/value pairs an options block carries. */
  function OptionPairs(options: Options): seq<(string, string)> {
    if options == [] then [] else KeyPairs(options[0].0, options[0].1) + OptionPairs(options[1..])
  }

  /** The fields of the options block, one key field and one value field per pair. */
  function PairFields(ps: seq<(string, string)>): string {
    if ps == [] then "" else PairField(ps[0]) + PairFields(ps[1..])
  }

  /** The key field followed by the value field. */
  function PairField(p: (string, string)): string {
    Field(p.0) + Field(p.1)
  }

  /** The frame _write sends for a command. */
  function Frame(args: seq<string>, options: Options): string {
    (if |options| > 0 then "o" + PairFields(OptionPairs(options)) + "e " else "")
    + "l" + ArgFields(args) + "e\n"
  }

  // ---------------------------------------------------------------------
  // Building a frame field by field, as the loops of _write do

  lemma ArgFieldsSnoc(args: seq<string>, a: string)
    ensures ArgFields(args + [a]) == ArgFields(args) + Field(a)
  {
    if args == [] {
      assert args + [a] == [a];
    } else {
      assert (args + [a])[1..] == args[1..] + [a];
      ArgFieldsSnoc(args[1..], a);
    }
  }

  lemma PairFieldsAppend(a: seq<(string, string)>, b: seq<(string, string)>)
    ensures PairFields(a + b) == PairFields(a) + PairFields(b)
  {
    if a == [] {
      assert a + b == b;
    } else {
      assert (a + b)[1..] == a[1..] + b;
      PairFieldsAppend(a[1..], b);
    }
  }

  lemma OptionPairsSnoc(options: Options, o: (string, seq<string>))
    ensures OptionPairs(options + [o]) == OptionPairs(options) + KeyPairs(o.0, o.1)
  {
    if options == [] {
      assert options + [o] == [o];
    } else {
      assert (options + [o])[1..] == options[1..] + [o];
      OptionPairsSnoc(options[1..], o);
    }
  }

  // ---------------------------------------------------------------------
  // Decoding

  /** The end of the run of digits that starts at `i`. */
  function DigitRun(s: string, i: nat): (k: nat)
    requires i <= |s|
    ensures i <= k <= |s|
    ensures forall p :: i <= p < k ==> IsDigit(s[p])
    ensures k < |s| ==> !IsDigit(s[k])
    decreases |s| - i
  {
    if i == |s| || !IsDigit(s[i]) then i else DigitRun(s, i + 1)
  }

  /** Reads one `<len>:<s>` field at `i`; yields the string and the position after it. */
  function DecodeField(s: string, i: nat): (r: Option<(string, nat)>)
    requires i <= |s|
    ensures r.Some? ==> i < r.value.1 <= |s|
  {
    var k := DigitRun(s, i);
    if k == i || k == |s| || s[k] != ':' then None
    else
      var n := DigitsValue(s[i..k]);
      if k + 1 + n > |s| then None else Some((s[k + 1..k + 1 + n], k + 1 + n))
  }

  /** Reads argument fields up to and including the closing `e`. */
  function DecodeArgs(s: string, i: nat): Option<(seq<string>, nat)>
    requires i <= |s|
    decreases |s| - i
  {
    if i == |s| then None
    else if s[i] == 'e' then Some(([], i + 1))
    else
      var f := DecodeField(s, i);
      if f.None? then None
      else
        var rest := DecodeArgs(s, f.value.1);
        if rest.None? then None else Some(([f.value.0] + rest.value.0, rest.value.1))
  }

  /** Reads one key field and one value field. */
  function DecodePair(s: string, i: nat): (r: Option<((string, string), nat)>)
    requires i <= |s|
    ensures r.Some? ==> i < r.value.1 <= |s|
  {
    var key := DecodeField(s, i);
    if key.None? then None
    else
      var value := DecodeField(s, key.value.1);
      if value.None? then None else Some(((key.value.0, value.value.0), value.value.1))
  }

  /** Reads key/value field pairs up to and including the closing `e`. */
  function DecodePairs(s: string, i: nat): Option<(seq<(string, string)>, nat)>
    requires i <= |s|
    decreases |s| - i
  {
    if i == |s| then None
    else if s[i] == 'e' then Some(([], i + 1))
    else
      var p := DecodePair(s, i);
      if p.None? then None
      else
        var rest := DecodePairs(s, p.value.1);
        if rest.None? then None else Some(([p.value.0] + rest.value.0, rest.value.1))
  }

  /** Where the argument list starts, after the options block if there is one,
      and the pairs that block carries. */
  function DecodeOptions(s: string): Option<(seq<(string, string)>, nat)> {
    if |s| > 0 && s[0] == 'o' then
      var block := DecodePairs(s, 1);
      if block.Some? && block.value.1 < |s| && s[block.value.1] == ' '
      then Some((block.value.0, block.value.1 + 1))
      else None
    else Some(([], 0))
  }

  /** Reads a whole frame: the arguments and the flat key/value option pairs. */
  function DecodeFrame(s: string): Option<(seq<string>, seq<(string, string)>)> {
    var opts := DecodeOptions(s);
    if opts.None? then None
    else
      var i := opts.value.1;
      if i < |s| && s[i] == 'l' then
        var args := DecodeArgs(s, i + 1);
        if args.Some? && args.value.1 + 1 == |s| && s[args.value.1] == '\n'
        then Some((args.value.0, opts.value.0))
        else None
      else None
  }

  // ---------------------------------------------------------------------
  // Round trip

  /** A field written at `i` reads back as the same string. */
  lemma DecodeFieldOf(s: string, i: nat, x: string)
    requires i + |Field(x)| <= |s| && s[i..i + |Field(x)|] == Field(x)
    ensures DecodeField(s, i) == Some((x, i + |Field(x)|))
  {
    var d := NatToString(|x|);
    var e := i + |d|;
    var f := Field(x);
    SubSlice(s, i, f, 0, |d|);
    assert f[..|d|] == d;
    assert s[i..e] == d;
    assert s[e] == f[|d|] == ':';
    forall p | i <= p < e ensures IsDigit(s[p]) {
      assert s[p] == d[p - i];
    }
    var k := DigitRun(s, i);
    assert !IsDigit(s[e]);
    assert k == e;
    SubSlice(s, i, f, |d| + 1, |f|);
    assert f[|d| + 1..] == x;
  }

  lemma DecodeArgsOf(s: string, i: nat, args: seq<string>)
    requires i + |ArgFields(args)| < |s|
    requires s[i..i + |ArgFields(args)|] == ArgFields(args) && s[i + |ArgFields(args)|] == 'e'
    ensures DecodeArgs(s, i) == Some((args, i + |ArgFields(args)| + 1))
    decreases |args|
  {
    if args != [] {
      var t := ArgFields(args);
      var f := Field(args[0]);
      var rest := ArgFields(args[1..]);
      assert t == f + rest;
      SubSlice(s, i, t, 0, |f|);
      assert t[..|f|] == f;
      SubSlice(s, i, t, |f|, |t|);
      assert t[|f|..] == rest;
      assert s[i] == f[0] == NatToString(|args[0]|)[0];
      DecodeFieldOf(s, i, args[0]);
      DecodeArgsOf(s, i + |f|, args[1..]);
      assert [args[0]] + args[1..] == args;
    }
  }

  /** A key/value field pair written at `i` reads back as the same pair. */
  lemma DecodePairOf(s: string, i: nat, p: (string, string))
    requires i + |PairField(p)| <= |s| && s[i..i + |PairField(p)|] == PairField(p)
    ensures DecodePair(s, i) == Some((p, i + |PairField(p)|))
  {
    var t := PairField(p);
    var fk := Field(p.0);
    SubSlice(s, i, t, 0, |fk|);
    assert t[..|fk|] == fk;
    SubSlice(s, i, t, |fk|, |t|);
    assert t[|fk|..] == Field(p.1);
    DecodeFieldOf(s, i, p.0);
    DecodeFieldOf(s, i + |fk|, p.1);
  }

  /** Where the first pair and the remaining pairs sit inside the block. */
  lemma PairFieldsSplit(s: string, i: nat, ps: seq<(string, string)>)
    requires ps != [] && i + |PairFields(ps)| <= |s| && s[i..i + |PairFields(ps)|] == PairFields(ps)
    ensures |PairFields(ps)| == |PairField(ps[0])| + |PairFields(ps[1..])|
    ensures s[i..i + |PairField(ps[0])|] == PairField(ps[0])
    ensures s[i + |PairField(ps[0])|..i + |PairFields(ps)|] == PairFields(ps[1..])
    ensures IsDigit(s[i])
  {
    var t := PairFields(ps);
    var f := PairField(ps[0]);
    assert t == f + PairFields(ps[1..]);
    SubSlice(s, i, t, 0, |f|);
    assert t[..|f|] == f;
    SubSlice(s, i, t, |f|, |t|);
    assert t[|f|..] == PairFields(ps[1..]);
    assert f[0] == NatToString(|ps[0].0|)[0];
  }

  /** One step of DecodePairs: a pair, then the rest of the block. */
  lemma DecodePairsStep(s: string, i: nat, p: (string, string), m: nat,
                        rest: seq<(string, string)>, n: nat)
    requires i < |s| && s[i] != 'e'
    requires DecodePair(s, i) == Some((p, m)) && m <= |s|
    requires DecodePairs(s, m) == Some((rest, n))
    ensures DecodePairs(s, i) == Some(([p] + rest, n))
  {
  }

  lemma DecodePairsOf(s: string, i: nat, ps: seq<(string, string)>)
    requires i + |PairFields(ps)| < |s|
    requires s[i..i + |PairFields(ps)|] == PairFields(ps) && s[i + |PairFields(ps)|] == 'e'
    ensures DecodePairs(s, i) == Some((ps, i + |PairFields(ps)| + 1))
    decreases |ps|
  {
    if ps == [] {
      assert PairFields(ps) == "";
    } else {
      PairFieldsSplit(s, i, ps);
      var m := i + |PairField(ps[0])|;
      DecodePairOf(s, i, ps[0]);
      DecodePairsOf(s, m, ps[1..]);
      var n := i + |PairFields(ps)| + 1;
      DecodePairsStep(s, i, ps[0], m, ps[1..], n);
      assert [ps[0]] + ps[1..] == ps;
    }
  }

  /** The layout of `o<fields>e␠` followed by `tail`. */
  lemma OptionsBlockShape(s: string, p: string, tail: string)
    requires s == "o" + p + "e " + tail
    ensures |s| == |p| + 3 + |tail| && s[0] == 'o' && s[1 + |p|] == 'e' && s[2 + |p|] == ' '
    ensures s[1..1 + |p|] == p && s[|p| + 3..] == tail
  {
    var head := "o" + p + "e ";
    assert s[..|head|] == head;
    SubSlice(s, 0, head, 1, 1 + |p|);
    assert head[1..1 + |p|] == p;
  }

  /** An options block reads back as its pairs, and the argument list
      starts right after it. */
  lemma OptionsBlockAt(s: string, ps: seq<(string, string)>)
    requires |PairFields(ps)| + 3 <= |s| && s[0] == 'o'
    requires s[1..1 + |PairFields(ps)|] == PairFields(ps)
    requires s[1 + |PairFields(ps)|] == 'e' && s[2 + |PairFields(ps)|] == ' '
    ensures DecodeOptions(s) == Some((ps, |PairFields(ps)| + 3))
  {
    DecodePairsOf(s, 1, ps);
  }

  /** Every frame _write produces decodes back to the same arguments, in
      order, and to one key/value pair per option value, in order. */
  lemma FrameRoundTrip(args: seq<string>, options: Options)
    ensures DecodeFrame(Frame(args, options)) == Some((args, OptionPairs(options)))
  {
    var s := Frame(args, options);
    var ps := OptionPairs(options);
    var tail := "l" + ArgFields(args) + "e\n";
    if |options| > 0 {
      assert s == "o" + PairFields(ps) + "e " + tail;
      OptionsBlockShape(s, PairFields(ps), tail);
      OptionsBlockAt(s, ps);
      ArgListAt(s, |PairFields(ps)| + 3, args);
    } else {
      assert s == tail && ps == [];
      assert DecodeOptions(s) == Some((ps, 0));
      ArgListAt(s, 0, args);
    }
  }

  /** An argument list `l<fields>e\n` that closes a frame whose options
      block ended at `i` reads back as the same arguments. */
  lemma ArgListAt(s: string, i: nat, args: seq<string>)
    requires i <= |s| && s[i..] == "l" + ArgFields(args) + "e\n"
    requires DecodeOptions(s).Some? && DecodeOptions(s).value.1 == i
    ensures DecodeFrame(s) == Some((args, DecodeOptions(s).value.0))
  {
    var a := ArgFields(args);
    var tail := "l" + a + "e\n";
    SubSlice(s, i, tail, 1, 1 + |a|);
    assert tail[1..1 + |a|] == a;
    assert s[i] == 'l' && s[i + 1 + |a|] == 'e' && |s| == i + |a| + 3 && s[|s| - 1] == '\n';
    DecodeArgsOf(s, i + 1, args);
  }
}
