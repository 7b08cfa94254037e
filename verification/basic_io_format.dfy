/**
 * The basic_io text monotone writes, and what _parseBasicIO makes of it.
 *
 * Printing a stanza list puts one line per key, the key followed by a
 * space and either `[hash]` or the quoted, escaped values separated by
 * spaces, and a blank line between stanzas. Reading such a text back gives
 * the same stanzas, as long as no value ends in a backslash; a value that
 * does makes the scanner miss its closing quote.
 */
module BasicIOFormat {
  import opened PhpRuntime
  import opened BasicIO

  // ---------------------------------------------------------------------
  // Escaping

  function EscapeChar(c: char): string {
    if c == '\\' then "\\\\" else if c == '"' then "\\\"" else [c]
  }

  /** A value as it appears between its quotes. */
  function Escape(v: string): string {
    if v == [] then "" else EscapeChar(v[0]) + Escape(v[1..])
  }

  /** The first of the two replacements leaves this behind: quotes still
      escaped, backslashes no longer. */
  function EscapeQuotes(v: string): string {
    if v == [] then "" else (if v[0] == '"' then "\\\"" else [v[0]]) + EscapeQuotes(v[1..])
  }

  lemma {:induction false} EscapeAppend(a: string, b: string)
    ensures Escape(a + b) == Escape(a) + Escape(b)
  {
    if a == [] {
      assert a + b == b;
    } else {
      assert (a + b)[1..] == a[1..] + b;
      EscapeAppend(a[1..], b);
    }
  }

  /** An escaped value never starts with a bare quote. */
  lemma {:induction false} EscapeHead(v: string)
    requires v != []
    ensures Escape(v)[0] != '"'
  {
    assert Escape(v)[0] == EscapeChar(v[0])[0];
  }

  /** Inside an escaped value every quote has a backslash before it. */
  lemma {:induction false} EscapedQuotes(v: string)
    ensures forall j :: 0 < j < |Escape(v)| ==> !ClosesValue(Escape(v), j)
  {
    if v != [] {
      var rest := Escape(v[1..]);
      EscapedQuotes(v[1..]);
      var h := EscapeChar(v[0]);
      var e := Escape(v);
      assert e == h + rest;
      forall j | 0 < j < |e| ensures !ClosesValue(e, j) {
        if j < |h| {
          assert e[0] == h[0] == '\\';
        } else if j == |h| {
          if rest != [] {
            EscapeHead(v[1..]);
          }
          assert e[j] == rest[0];
        } else {
          assert e[j] == rest[j - |h|] && e[j - 1] == rest[j - |h| - 1];
          assert !ClosesValue(rest, j - |h|);
        }
      }
    }
  }

  /** An escaped value ends in a backslash only if the value does. */
  lemma {:induction false} EscapedLast(v: string)
    requires v != [] && v[|v| - 1] != '\\'
    ensures Escape(v) != [] && Escape(v)[|Escape(v)| - 1] != '\\'
  {
    var init := v[..|v| - 1];
    assert v == init + [v[|v| - 1]];
    EscapeAppend(init, [v[|v| - 1]]);
    assert Escape([v[|v| - 1]]) == EscapeChar(v[|v| - 1]);
  }

  /** The `\\` replacement undoes the escaping of backslashes. */
  lemma {:induction false} UnescapeBackslashes(v: string)
    ensures ReplaceAll(Escape(v), "\\\\", "\\") == EscapeQuotes(v)
  {
    if v != [] {
      var rest := Escape(v[1..]);
      UnescapeBackslashes(v[1..]);
      var e := Escape(v);
      assert e == EscapeChar(v[0]) + rest;
      if v[0] == '\\' {
        assert e[..2] == "\\\\" && e[2..] == rest;
      } else if v[0] == '"' {
        assert EscapeChar(v[0]) == "\\\"";
        assert e[..2] != "\\\\";
        var t := e[1..];
        assert t == "\"" + rest;
        assert t[0] == '"';
        assert t[1..] == rest;
      } else {
        assert e[0] == v[0];
        assert |e| < 2 || e[..2] != "\\\\";
        assert e[1..] == rest;
      }
    }
  }

  /** A value with its quotes escaped never starts with a bare quote. */
  lemma {:induction false} EscapeQuotesHead(v: string)
    requires v != []
    ensures EscapeQuotes(v)[0] != '"'
  {
  }

  /** The `\"` replacement undoes the escaping of quotes. */
  lemma {:induction false} UnescapeQuotes(v: string)
    ensures ReplaceAll(EscapeQuotes(v), "\\\"", "\"") == v
  {
    if v != [] {
      var rest := EscapeQuotes(v[1..]);
      UnescapeQuotes(v[1..]);
      var e := EscapeQuotes(v);
      if v[0] == '"' {
        assert e == "\\\"" + rest;
        assert e[..2] == "\\\"" && e[2..] == rest;
      } else {
        assert e == [v[0]] + rest;
        if v[0] == '\\' && v[1..] != [] {
          EscapeQuotesHead(v[1..]);
          assert e[1] == rest[0];
        }
        assert |e| < 2 || e[..2] != "\\\"";
        assert e[1..] == rest;
      }
      assert v == [v[0]] + v[1..];
    }
  }

  /** Unescaping an escaped value gives the value back: applying the two
      replacements in turn is harmless on what monotone writes. */
  lemma {:induction false} UnescapeEscape(v: string)
    ensures Unescape(Escape(v)) == v
  {
    UnescapeBackslashes(v);
    UnescapeQuotes(v);
  }

  // ---------------------------------------------------------------------
  // Printing

  function Quoted(v: string): string {
    "\"" + Escape(v) + "\""
  }

  /** The quoted values of a line, separated by single spaces. */
  function ValueList(vs: seq<string>): string {
    if vs == [] then ""
    else if |vs| == 1 then Quoted(vs[0])
    else Quoted(vs[0]) + " " + ValueList(vs[1..])
  }

  function LineText(l: Line): string {
    l.key + " " + (if l.hash.Some? then "[" + l.hash.value + "]" else ValueList(l.values)) + "\n"
  }

  function StanzaText(st: Stanza): string {
    if st == [] then "" else LineText(st[0]) + StanzaText(st[1..])
  }

  /** Stanzas separated by a blank line. */
  function Serialize(sts: seq<Stanza>): string {
    if sts == [] then ""
    else if |sts| == 1 then StanzaText(sts[0])
    else StanzaText(sts[0]) + "\n" + Serialize(sts[1..])
  }

  predicate EndsInBackslash(v: string) {
    |v| > 0 && v[|v| - 1] == '\\'
  }

  /** A line monotone can print so that it reads back: a key of key
      characters without newlines, then a 40-character hash or at least
      one value, none of them ending in a backslash. */
  predicate Printable(l: Line) {
    && IsKey(l.key) && '\n' !in l.key
    && (l.hash.Some? ==> |l.hash.value| == 40 && l.values == [])
    && (l.hash.None? ==> |l.values| >= 1 && forall i :: 0 <= i < |l.values| ==> !EndsInBackslash(l.values[i]))
  }

  predicate PrintableStanza(st: Stanza) {
    |st| > 0 && forall i :: 0 <= i < |st| ==> Printable(st[i])
  }

  function EscapeAll(vs: seq<string>): (r: seq<string>)
    ensures |r| == |vs|
  {
    if vs == [] then [] else [Escape(vs[0])] + EscapeAll(vs[1..])
  }

  function UnescapeAll(vs: seq<string>): (r: seq<string>)
    ensures |r| == |vs|
  {
    if vs == [] then [] else [Unescape(vs[0])] + UnescapeAll(vs[1..])
  }

  lemma {:induction false} UnescapeAllEscapeAll(vs: seq<string>)
    ensures UnescapeAll(EscapeAll(vs)) == vs
  {
    if vs != [] {
      UnescapeEscape(vs[0]);
      UnescapeAllEscapeAll(vs[1..]);
    }
  }

  // ---------------------------------------------------------------------
  // Reading a printed text back, loop by loop

  /** The key loop over characters that are not delimiters. */
  lemma {:induction false} ScanKeyRun(s: string, q: nat, acc: string, e: nat)
    requires q <= e < |s|
    requires forall j :: q <= j < e ==> s[j] != '"' && s[j] != '['
    requires s[e] == '"' || s[e] == '['
    ensures ScanKey(s, q, acc) == (acc + Without(s[q..e], ' '), e)
    decreases e - q
  {
    if q == e {
      assert Without(s[q..e], ' ') == "";
      assert acc + "" == acc;
    } else {
      var acc' := if s[q] == ' ' then acc else acc + [s[q]];
      assert ScanKey(s, q, acc) == ScanKey(s, q + 1, acc');
      ScanKeyRun(s, q + 1, acc', e);
      var x := s[q..e];
      assert x[0] == s[q] && x[1..] == s[q + 1..e];
      var w := Without(s[q + 1..e], ' ');
      assert Without(x, ' ') == (if s[q] == ' ' then "" else [s[q]]) + w;
      if s[q] != ' ' {
        assert acc' + w == acc + ([s[q]] + w);
      } else {
        assert "" + w == w;
      }
    }
  }

  /** A key followed by a space and a delimiter is read as that key. */
  lemma {:induction false} ScanKeyOf(s: string, pos: nat, key: string)
    requires pos + |key| + 1 < |s| && s[pos..pos + |key|] == key && s[pos + |key|] == ' '
    requires s[pos + |key| + 1] == '"' || s[pos + |key| + 1] == '['
    requires IsKey(key)
    ensures ScanKey(s, pos, "") == (key, pos + |key| + 1)
  {
    var e := pos + |key| + 1;
    assert s[pos..e] == key + " ";
    forall j | pos <= j < e ensures s[j] != '"' && s[j] != '[' {
      if j < pos + |key| {
        assert s[j] == key[j - pos];
      }
    }
    ScanKeyRun(s, pos, "", e);
    WithoutAppend(key, " ", ' ');
    assert ' ' !in key by {
      forall i | 0 <= i < |key| ensures key[i] != ' ' {
        assert IsKeyChar(key[i]);
      }
    }
    WithoutAbsent(key, ' ');
    assert Without(" ", ' ') == "" + Without(" "[1..], ' ');
    assert " "[1..] == "";
    assert Without(key + " ", ' ') == key + "" == key;
    assert "" + key == key;
  }

  /** The value loop over characters none of which ends the value. */
  lemma {:induction false} ScanValueRun(s: string, q: nat, v: string, e: nat)
    requires 1 <= q <= e < |s|
    requires forall j :: q <= j < e ==> !ClosesValue(s, j)
    requires ClosesValue(s, e)
    ensures ScanValue(s, q, v) == (v + s[q..e], e)
    decreases e - q
  {
    if q == e {
      assert s[q..e] == "";
      assert v + "" == v;
    } else {
      assert ScanValue(s, q, v) == ScanValue(s, q + 1, v + [s[q]]);
      ScanValueRun(s, q + 1, v + [s[q]], e);
      assert s[q..e] == [s[q]] + s[q + 1..e];
      assert v + [s[q]] + s[q + 1..e] == v + s[q..e];
    }
  }

  /** A value text between quotes, none of whose quotes closes it, is
      read up to the closing quote. */
  lemma {:induction false} ScanQuoted(s: string, p: nat, ev: string)
    requires p + |ev| + 1 < |s| && s[p] == '"' && s[p + 1..p + 1 + |ev|] == ev && s[p + 1 + |ev|] == '"'
    requires |ev| > 0 ==> ev[0] != '"' && ev[|ev| - 1] != '\\'
    requires forall j :: 0 < j < |ev| ==> !ClosesValue(ev, j)
    ensures ScanValue(s, p + 1, "") == (ev, p + 1 + |ev|)
  {
    var e := p + 1 + |ev|;
    forall j | p + 1 <= j < e ensures !ClosesValue(s, j) {
      assert s[j] == ev[j - p - 1];
      if j > p + 1 {
        assert s[j - 1] == ev[j - p - 2];
        assert !ClosesValue(ev, j - p - 1);
      }
    }
    if |ev| > 0 {
      assert s[e - 1] == ev[|ev| - 1];
    }
    ScanValueRun(s, p + 1, "", e);
    assert "" + ev == ev;
  }

  /** A quoted value not ending in a backslash is read up to its closing
      quote, escapes still in place. */
  lemma {:induction false} ScanValueOf(s: string, p: nat, v: string)
    requires p + |Quoted(v)| <= |s| && s[p..p + |Quoted(v)|] == Quoted(v)
    requires !EndsInBackslash(v)
    ensures s[p] == '"' && ScanValue(s, p + 1, "") == (Escape(v), p + 1 + |Escape(v)|)
  {
    var ev := Escape(v);
    assert s[p] == '"' && s[p + 1..p + 1 + |ev|] == ev && s[p + 1 + |ev|] == '"' by {
      Peel(s, p, "\"" + ev, "\"");
      Peel(s, p, "\"", ev);
    }
    EscapedQuotes(v);
    if v != [] {
      EscapeHead(v);
      EscapedLast(v);
    }
    ScanQuoted(s, p, ev);
  }

  /** One round of the values loop followed by a space. */
  lemma {:induction false} ScanValuesSpace(s: string, pos: nat, vals: seq<string>, ev: string, next: nat)
    requires pos < |s| && s[pos] == '"' && next < |s| && s[next] == ' '
    requires ScanValue(s, pos + 1, "") == (ev, next - 1)
    ensures ScanValues(s, pos, vals, |vals|) == ScanValues(s, next + 1, vals + [ev], |vals| + 1)
  {
  }

  /** The last round of the values loop, followed by a newline. */
  lemma {:induction false} ScanValuesLast(s: string, pos: nat, vals: seq<string>, ev: string, next: nat)
    requires pos < |s| && s[pos] == '"' && next < |s| && s[next] == '\n'
    requires ScanValue(s, pos + 1, "") == (ev, next - 1)
    ensures ScanValues(s, pos, vals, |vals|) == (vals + [ev], |vals|, next)
  {
    assert !IsAt(s, next, ' ') && !IsAt(s, next, '"');
    assert ScanValues(s, next, vals + [ev], |vals|) == (vals + [ev], |vals|, next);
  }

  // ---------------------------------------------------------------------
  // Where printed text sits in the input

  /** `t` occurs in `s` at `pos`, stated character by character. */
  predicate Occurs(s: string, pos: nat, t: string) {
    pos + |t| <= |s| && forall i :: 0 <= i < |t| ==> s[pos + i] == t[i]
  }

  lemma {:induction false} OccursSlice(s: string, pos: nat, t: string)
    ensures Occurs(s, pos, t) <==> pos + |t| <= |s| && s[pos..pos + |t|] == t
  {
    if pos + |t| <= |s| {
      if Occurs(s, pos, t) {
        assert s[pos..pos + |t|] == t by {
          forall i | 0 <= i < |t| ensures s[pos..pos + |t|][i] == t[i] {
            assert s[pos + i] == t[i];
          }
        }
      }
      if s[pos..pos + |t|] == t {
        forall i | 0 <= i < |t| ensures s[pos + i] == t[i] {
          assert s[pos..pos + |t|][i] == s[pos + i];
        }
      }
    }
  }

  lemma {:induction false} OccursSplit(s: string, pos: nat, a: string, b: string)
    requires Occurs(s, pos, a + b)
    ensures Occurs(s, pos, a) && Occurs(s, pos + |a|, b)
  {
    forall i | 0 <= i < |a| ensures s[pos + i] == a[i] {
      assert (a + b)[i] == a[i];
    }
    forall i | 0 <= i < |b| ensures s[pos + |a| + i] == b[i] {
      assert (a + b)[|a| + i] == b[i];
    }
  }

  lemma {:induction false} OccursAt(s: string, pos: nat, t: string, i: nat)
    requires Occurs(s, pos, t) && i < |t|
    ensures pos + i < |s| && s[pos + i] == t[i]
  {
  }

  /** `a`, one separator character and `b` in a row. */
  lemma {:induction false} OccursSepSplit(s: string, pos: nat, a: string, sep: string, b: string)
    requires |sep| == 1 && Occurs(s, pos, a + (sep + b))
    ensures Occurs(s, pos, a) && pos + |a| < |s| && s[pos + |a|] == sep[0]
    ensures Occurs(s, pos + |a| + 1, b)
  {
    OccursSplit(s, pos, a, sep + b);
    OccursSplit(s, pos + |a|, sep, b);
    OccursAt(s, pos + |a|, sep, 0);
  }

  lemma {:induction false} OccursSuffix(s: string, i: nat)
    requires i <= |s|
    ensures Occurs(s, i, s[i..])
  {
    forall j | 0 <= j < |s[i..]| ensures s[i + j] == s[i..][j] {
    }
  }

  // ---------------------------------------------------------------------
  // Reading a printed text back, level by level

  /** A printed value list followed by a newline at `end`, as the values
      loop meets it: value by value. */
  predicate ValuesAt(s: string, pos: nat, vs: seq<string>, end: nat)
    decreases |vs|
  {
    && |vs| >= 1 && !EndsInBackslash(vs[0]) && Occurs(s, pos, Quoted(vs[0]))
    && var next := pos + |Quoted(vs[0])|;
    && next < |s|
    && if |vs| == 1 then next == end && s[next] == '\n'
       else s[next] == ' ' && ValuesAt(s, next + 1, vs[1..], end)
  }

  /** The first value of a layout as `ValuesAt` says, as the value loop reads it. */
  lemma {:induction false} ValuesAtHead(s: string, pos: nat, vs: seq<string>, end: nat)
    requires ValuesAt(s, pos, vs, end) == true
    ensures pos < |s| && s[pos] == '"'
    ensures ScanValue(s, pos + 1, "") == (Escape(vs[0]), pos + |Quoted(vs[0])| - 1)
  {
    OccursSlice(s, pos, Quoted(vs[0]));
    ScanValueOf(s, pos, vs[0]);
  }

  /** The values loop over values laid out as `ValuesAt` says. */
  lemma {:induction false} ScanValuesAt(s: string, pos: nat, vals: seq<string>, vs: seq<string>, end: nat)
    requires ValuesAt(s, pos, vs, end) == true
    ensures ScanValues(s, pos, vals, |vals|) == (vals + EscapeAll(vs), |vals| + |vs| - 1, end)
    decreases |vs|
  {
    var ev := Escape(vs[0]);
    var next := pos + |Quoted(vs[0])|;
    ValuesAtHead(s, pos, vs, end);
    if |vs| == 1 {
      ScanValuesLast(s, pos, vals, ev, next);
      assert vs[1..] == [] && EscapeAll(vs[1..]) == [];
      assert EscapeAll(vs) == [ev] + EscapeAll(vs[1..]) == [ev];
    } else {
      var tail := EscapeAll(vs[1..]);
      ScanValuesSpace(s, pos, vals, ev, next);
      ScanValuesAt(s, next + 1, vals + [ev], vs[1..], end);
      assert |vals + [ev]| == |vals| + 1;
      assert ScanValues(s, pos, vals, |vals|) == (vals + [ev] + tail, |vals| + |vs| - 1, end);
      assert EscapeAll(vs) == [ev] + tail;
      AppendAssoc(vals, [ev], tail);
    }
  }

  /** A printed value list followed by a newline is laid out as
      `ValuesAt` says. */
  lemma {:induction false} ValueListAt(s: string, pos: nat, vs: seq<string>)
    requires |vs| >= 1 && forall i :: 0 <= i < |vs| ==> !EndsInBackslash(vs[i])
    requires Occurs(s, pos, ValueList(vs) + "\n")
    ensures ValuesAt(s, pos, vs, pos + |ValueList(vs)|) == true
    decreases |vs|
  {
    var q := Quoted(vs[0]);
    if |vs| == 1 {
      assert Occurs(s, pos, q) && pos + |q| < |s| && s[pos + |q|] == '\n' by {
        assert ValueList(vs) + "\n" == q + ("\n" + "");
        OccursSepSplit(s, pos, q, "\n", "");
      }
    } else {
      var rest := ValueList(vs[1..]);
      assert Occurs(s, pos, q) && pos + |q| < |s| && s[pos + |q|] == ' '
          && Occurs(s, pos + |q| + 1, rest + "\n") by {
        assert ValueList(vs) + "\n" == q + (" " + (rest + "\n"));
        OccursSepSplit(s, pos, q, " ", rest + "\n");
      }
      assert ValuesAt(s, pos + |q| + 1, vs[1..], pos + |q| + 1 + |rest|) by {
        ValueListAt(s, pos + |q| + 1, vs[1..]);
      }
      assert |ValueList(vs)| == |q| + 1 + |rest|;
    }
  }

  lemma {:induction false} AppendHead<T>(a: seq<T>, b: seq<T>)
    requires b != []
    ensures a + [b[0]] + b[1..] == a + b
  {
    assert b == [b[0]] + b[1..];
  }

  lemma {:induction false} AppendAssoc<T>(a: seq<T>, b: seq<T>, c: seq<T>)
    ensures a + b + c == a + (b + c)
  {
  }

  /** The unescaping loop when every index up to `valCount` holds a value. */
  lemma {:induction false} UnescapeFromFull(vals: seq<string>, i: nat, valCount: nat)
    requires |vals| == valCount + 1 && i <= |vals|
    ensures UnescapeFrom(vals, i, valCount) == vals[..i] + UnescapeAll(vals[i..])
    decreases valCount + 1 - i
  {
    if i > valCount {
      assert vals[i..] == [];
    } else {
      var vals' := vals[i := Unescape(vals[i])];
      UnescapeFromFull(vals', i + 1, valCount);
      assert vals'[..i + 1] == vals[..i] + [Unescape(vals[i])];
      assert vals'[i + 1..] == vals[i + 1..];
      assert vals[i..][1..] == vals[i + 1..];
    }
  }

  /** ParseLine given what the key and value scanners find. */
  lemma {:induction false} ParseLineFrom(s: string, pos: nat, l: Line, k: nat, end: nat)
    requires pos <= |s| && Printable(l)
    requires ScanKey(s, pos, "") == (l.key, k)
    requires l.hash.Some? ==> IsAt(s, k, '[') && k + 41 <= |s| && s[k + 1..k + 41] == l.hash.value && end == k + 43
    requires l.hash.None? ==> IsAt(s, k, '"') && ScanValues(s, k, [], 0) == (EscapeAll(l.values), |l.values| - 1, end - 1)
    ensures ParseLine(s, pos) == (l, end)
  {
    if l.hash.None? {
      var vs := l.values;
      assert UnescapeFrom(EscapeAll(vs), 0, |vs| - 1) == vs by {
        UnescapeFromFull(EscapeAll(vs), 0, |vs| - 1);
        assert EscapeAll(vs)[0..] == EscapeAll(vs);
        UnescapeAllEscapeAll(vs);
      }
    }
  }

  /** Where the key of a printed line sits, and what the key loop makes
      of it. */
  lemma {:induction false} KeyAt(s: string, pos: nat, key: string, body: string)
    requires IsKey(key) && body != [] && (body[0] == '"' || body[0] == '[')
    requires Occurs(s, pos, key + " " + body + "\n")
    ensures ScanKey(s, pos, "") == (key, pos + |key| + 1)
    ensures Occurs(s, pos + |key| + 1, body + "\n")
  {
    assert Occurs(s, pos, key) && pos + |key| < |s| && s[pos + |key|] == ' '
        && Occurs(s, pos + |key| + 1, body + "\n") by {
      assert key + " " + body + "\n" == key + (" " + (body + "\n"));
      OccursSepSplit(s, pos, key, " ", body + "\n");
    }
    assert s[pos + |key| + 1] == body[0] by {
      OccursAt(s, pos + |key| + 1, body + "\n", 0);
      assert (body + "\n")[0] == body[0];
    }
    assert s[pos..pos + |key|] == key by {
      OccursSlice(s, pos, key);
    }
    ScanKeyOf(s, pos, key);
  }

  /** A printed line with a hash is read back as the same line. */
  lemma {:induction false} ParseHashLineOf(s: string, pos: nat, l: Line)
    requires Printable(l) && l.hash.Some?
    requires Occurs(s, pos, LineText(l))
    ensures ParseLine(s, pos) == (l, pos + |LineText(l)|)
  {
    var k := pos + |l.key| + 1;
    var h := l.hash.value;
    var body := "[" + h + "]";
    assert LineText(l) == l.key + " " + body + "\n";
    KeyAt(s, pos, l.key, body);
    assert s[k] == '[' && s[k + 1..k + 41] == h by {
      assert body + "\n" == "[" + (h + "]\n");
      OccursSepSplit(s, k, "", "[", h + "]\n");
      OccursSplit(s, k + 1, h, "]\n");
      OccursSlice(s, k + 1, h);
    }
    ParseLineFrom(s, pos, l, k, pos + |LineText(l)|);
  }

  /** The values loop over a printed value list followed by a newline. */
  lemma {:induction false} ScanValueList(s: string, k: nat, vs: seq<string>)
    requires ValuesAt(s, k, vs, k + |ValueList(vs)|) == true
    ensures ScanValues(s, k, [], 0) == (EscapeAll(vs), |vs| - 1, k + |ValueList(vs)|)
  {
    var none: seq<string> := [];
    var all := EscapeAll(vs);
    assert ScanValues(s, k, none, |none|) == (none + all, |none| + |vs| - 1, k + |ValueList(vs)|) by {
      ScanValuesAt(s, k, none, vs, k + |ValueList(vs)|);
    }
    assert none + all == all;
  }

  /** Where the key and the values of a printed line with values sit. */
  lemma {:induction false} ValuesLineLayout(s: string, pos: nat, l: Line)
    requires Printable(l) && l.hash.None?
    requires Occurs(s, pos, LineText(l))
    ensures ScanKey(s, pos, "") == (l.key, pos + |l.key| + 1)
    ensures ValuesAt(s, pos + |l.key| + 1, l.values, pos + |l.key| + 1 + |ValueList(l.values)|) == true
    ensures |LineText(l)| == |l.key| + 1 + |ValueList(l.values)| + 1
  {
    var body := ValueList(l.values);
    assert LineText(l) == l.key + " " + body + "\n";
    assert body[0] == '"';
    KeyAt(s, pos, l.key, body);
    ValueListAt(s, pos + |l.key| + 1, l.values);
  }

  /** A printed line with values is read back as the same line. */
  lemma {:induction false} ParseValuesLineOf(s: string, pos: nat, l: Line)
    requires Printable(l) && l.hash.None?
    requires Occurs(s, pos, LineText(l))
    ensures ParseLine(s, pos) == (l, pos + |LineText(l)|)
  {
    var k := pos + |l.key| + 1;
    ValuesLineLayout(s, pos, l);
    ScanValueList(s, k, l.values);
    ValuesAtHead(s, k, l.values, k + |ValueList(l.values)|);
    ParseLineFrom(s, pos, l, k, pos + |LineText(l)|);
  }

  /** A printed line is read back as the same line, just past its newline. */
  lemma {:induction false} ParseLineOf(s: string, pos: nat, l: Line)
    requires Printable(l)
    requires Occurs(s, pos, LineText(l))
    ensures ParseLine(s, pos) == (l, pos + |LineText(l)|)
  {
    if l.hash.Some? {
      ParseHashLineOf(s, pos, l);
    } else {
      ParseValuesLineOf(s, pos, l);
    }
  }

  /** One round of the line loop. */
  lemma {:induction false} ParseStanzaStep(s: string, pos: nat, acc: Stanza, l: Line, next: nat)
    requires pos < |s| && s[pos] != '\n' && ParseLine(s, pos) == (l, next)
    ensures ParseStanza(s, pos, acc) == ParseStanza(s, next, acc + [l])
  {
  }

  /** A printed stanza followed by the end of the text or a newline at
      `end`, as the line loop meets it: line by line. */
  predicate LinesAt(s: string, pos: nat, st: Stanza, end: nat)
    decreases |st|
  {
    if st == [] then
      pos == end && (end == |s| || (end < |s| && s[end] == '\n'))
    else
      && pos < |s| && s[pos] != '\n' && Printable(st[0]) && Occurs(s, pos, LineText(st[0]))
      && LinesAt(s, pos + |LineText(st[0])|, st[1..], end)
  }

  /** The first line of a layout as `LinesAt` says, and where the rest
      sits. */
  lemma {:induction false} LinesAtHead(s: string, pos: nat, st: Stanza, end: nat)
    requires st != [] && LinesAt(s, pos, st, end) == true
    ensures pos < |s| && s[pos] != '\n' && Printable(st[0]) && Occurs(s, pos, LineText(st[0]))
    ensures LinesAt(s, pos + |LineText(st[0])|, st[1..], end) == true
  {
  }

  /** The first round of the line loop over lines laid out as `LinesAt` says. */
  lemma {:induction false} ParseStanzaHead(s: string, pos: nat, acc: Stanza, st: Stanza, end: nat)
    requires st != [] && LinesAt(s, pos, st, end) == true
    ensures ParseStanza(s, pos, acc) == ParseStanza(s, pos + |LineText(st[0])|, acc + [st[0]])
    ensures LinesAt(s, pos + |LineText(st[0])|, st[1..], end) == true
  {
    LinesAtHead(s, pos, st, end);
    ParseLineOf(s, pos, st[0]);
    ParseStanzaStep(s, pos, acc, st[0], pos + |LineText(st[0])|);
  }

  /** The line loop over lines laid out as `LinesAt` says. */
  lemma {:induction false} ParseStanzaAt(s: string, pos: nat, acc: Stanza, st: Stanza, end: nat)
    requires LinesAt(s, pos, st, end) == true
    ensures ParseStanza(s, pos, acc) == (acc + st, end)
    decreases |st|
  {
    if st == [] {
      assert acc + st == acc;
    } else {
      AppendHead(acc, st);
      ParseStanzaHead(s, pos, acc, st, end);
      ParseStanzaAt(s, pos + |LineText(st[0])|, acc + [st[0]], st[1..], end);
    }
  }

  lemma {:induction false} LinesAtCons(s: string, pos: nat, st: Stanza, end: nat)
    requires st != [] && pos < |s| && s[pos] != '\n' && Printable(st[0]) && Occurs(s, pos, LineText(st[0]))
    requires LinesAt(s, pos + |LineText(st[0])|, st[1..], end) == true
    ensures LinesAt(s, pos, st, end) == true
  {
  }

  /** Where the first line of a printed stanza sits. */
  lemma {:induction false} LineTextAt(s: string, pos: nat, st: Stanza)
    requires st != [] && Printable(st[0]) && Occurs(s, pos, StanzaText(st))
    ensures pos < |s| && s[pos] != '\n'
    ensures Occurs(s, pos, LineText(st[0])) && Occurs(s, pos + |LineText(st[0])|, StanzaText(st[1..]))
    ensures |StanzaText(st)| == |LineText(st[0])| + |StanzaText(st[1..])|
  {
    var t := LineText(st[0]);
    var rest := StanzaText(st[1..]);
    assert StanzaText(st) == t + rest;
    OccursSplit(s, pos, t, rest);
    OccursAt(s, pos, t, 0);
    if |st[0].key| > 0 {
      assert t[0] == st[0].key[0];
    } else {
      assert t[0] == ' ';
    }
  }

  /** A printed stanza followed by the end of the text or a newline is
      laid out as `LinesAt` says. */
  lemma {:induction false} StanzaTextAt(s: string, pos: nat, st: Stanza)
    requires forall i :: 0 <= i < |st| ==> Printable(st[i])
    requires Occurs(s, pos, StanzaText(st))
    requires pos + |StanzaText(st)| == |s| || s[pos + |StanzaText(st)|] == '\n'
    ensures LinesAt(s, pos, st, pos + |StanzaText(st)|) == true
    decreases |st|
  {
    if st != [] {
      var end := pos + |StanzaText(st)|;
      LineTextAt(s, pos, st);
      StanzaTextAt(s, pos + |LineText(st[0])|, st[1..]);
      LinesAtCons(s, pos, st, end);
    }
  }

  /** One round of the stanza loop. */
  lemma {:induction false} ParseStanzasStep(s: string, pos: nat, acc: seq<Stanza>, st: Stanza, next: nat)
    requires pos < |s| && ParseStanza(s, pos, []) == (st, next)
    ensures ParseStanzas(s, pos, acc) == ParseStanzas(s, next + 1, acc + [st])
  {
  }

  /** A printed text running to the end of the input, as the stanza loop
      meets it: stanza by stanza. */
  predicate StanzasAt(s: string, pos: nat, sts: seq<Stanza>)
    decreases |sts|
  {
    if sts == [] then
      pos >= |s|
    else
      && pos < |s| && LinesAt(s, pos, sts[0], pos + |StanzaText(sts[0])|)
      && StanzasAt(s, pos + |StanzaText(sts[0])| + 1, sts[1..])
  }

  lemma {:induction false} StanzasAtHead(s: string, pos: nat, sts: seq<Stanza>)
    requires sts != [] && StanzasAt(s, pos, sts) == true
    ensures pos < |s| && LinesAt(s, pos, sts[0], pos + |StanzaText(sts[0])|) == true
    ensures StanzasAt(s, pos + |StanzaText(sts[0])| + 1, sts[1..]) == true
  {
  }

  /** The first round of the stanza loop over stanzas laid out as
      `StanzasAt` says. */
  lemma {:induction false} ParseStanzasHead(s: string, pos: nat, acc: seq<Stanza>, sts: seq<Stanza>)
    requires sts != [] && StanzasAt(s, pos, sts) == true
    ensures ParseStanzas(s, pos, acc) == ParseStanzas(s, pos + |StanzaText(sts[0])| + 1, acc + [sts[0]])
    ensures StanzasAt(s, pos + |StanzaText(sts[0])| + 1, sts[1..]) == true
  {
    var st := sts[0];
    var next := pos + |StanzaText(st)|;
    var none: Stanza := [];
    assert none + st == st;
    StanzasAtHead(s, pos, sts);
    ParseStanzaAt(s, pos, none, st, next);
    ParseStanzasStep(s, pos, acc, st, next);
  }

  /** The stanza loop over stanzas laid out as `StanzasAt` says. */
  lemma {:induction false} ParseStanzasAt(s: string, pos: nat, acc: seq<Stanza>, sts: seq<Stanza>)
    requires StanzasAt(s, pos, sts) == true
    ensures ParseStanzas(s, pos, acc) == acc + sts
    decreases |sts|
  {
    if sts == [] {
      assert acc + sts == acc;
    } else {
      var next := pos + |StanzaText(sts[0])| + 1;
      var acc' := acc + [sts[0]];
      assert ParseStanzas(s, pos, acc) == ParseStanzas(s, next, acc') && StanzasAt(s, next, sts[1..]) by {
        ParseStanzasHead(s, pos, acc, sts);
      }
      assert ParseStanzas(s, next, acc') == acc' + sts[1..] by {
        ParseStanzasAt(s, next, acc', sts[1..]);
      }
      AppendHead(acc, sts);
    }
  }

  /** `t`, a newline and `rest` in a row. */
  lemma {:induction false} OccursNewlineSplit(s: string, pos: nat, t: string, rest: string)
    requires Occurs(s, pos, t + ("\n" + rest))
    ensures Occurs(s, pos, t) && pos + |t| < |s| && s[pos + |t|] == '\n'
    ensures Occurs(s, pos + |t| + 1, rest)
  {
    OccursSplit(s, pos, t, "\n" + rest);
    OccursSplit(s, pos + |t|, "\n", rest);
    assert s[pos + |t| + 0] == "\n"[0];
  }

  lemma {:induction false} SerializeCons(sts: seq<Stanza>)
    requires |sts| >= 2
    ensures Serialize(sts) == StanzaText(sts[0]) + ("\n" + Serialize(sts[1..]))
  {
  }

  lemma {:induction false} StanzaTextNonEmpty(st: Stanza)
    requires PrintableStanza(st)
    ensures |StanzaText(st)| > 0
  {
    assert StanzaText(st) == LineText(st[0]) + StanzaText(st[1..]);
  }

  lemma {:induction false} StanzasAtCons(s: string, pos: nat, sts: seq<Stanza>)
    requires sts != [] && pos < |s| && LinesAt(s, pos, sts[0], pos + |StanzaText(sts[0])|) == true
    requires StanzasAt(s, pos + |StanzaText(sts[0])| + 1, sts[1..]) == true
    ensures StanzasAt(s, pos, sts) == true
  {
  }

  /** Where the first stanza of a printed text of several stanzas sits. */
  lemma {:induction false} SerializeHead(s: string, pos: nat, sts: seq<Stanza>)
    requires |sts| >= 2 && PrintableStanza(sts[0])
    requires Occurs(s, pos, Serialize(sts))
    ensures LinesAt(s, pos, sts[0], pos + |StanzaText(sts[0])|) == true
    ensures Occurs(s, pos + |StanzaText(sts[0])| + 1, Serialize(sts[1..]))
    ensures |Serialize(sts)| == |StanzaText(sts[0])| + 1 + |Serialize(sts[1..])|
  {
    var st := sts[0];
    SerializeCons(sts);
    assert Occurs(s, pos, StanzaText(st)) && Occurs(s, pos + |StanzaText(st)| + 1, Serialize(sts[1..]))
      && pos + |StanzaText(st)| < |s| && s[pos + |StanzaText(st)|] == '\n' by {
      OccursNewlineSplit(s, pos, StanzaText(st), Serialize(sts[1..]));
    }
    StanzaTextAt(s, pos, st);
  }

  /** A printed text running to the end of the input is laid out as
      `StanzasAt` says. */
  lemma {:induction false} SerializeAt(s: string, pos: nat, sts: seq<Stanza>)
    requires forall i :: 0 <= i < |sts| ==> PrintableStanza(sts[i])
    requires Occurs(s, pos, Serialize(sts)) && pos + |Serialize(sts)| == |s|
    ensures StanzasAt(s, pos, sts) == true
    decreases |sts|, 1
  {
    if |sts| == 1 {
      SerializeAtLast(s, pos, sts);
    } else if |sts| >= 2 {
      SerializeAtMore(s, pos, sts);
    }
  }

  /** The last stanza of a printed text. */
  lemma {:induction false} SerializeAtLast(s: string, pos: nat, sts: seq<Stanza>)
    requires |sts| == 1 && PrintableStanza(sts[0])
    requires Occurs(s, pos, Serialize(sts)) && pos + |Serialize(sts)| == |s|
    ensures StanzasAt(s, pos, sts) == true
  {
    var st := sts[0];
    StanzaTextNonEmpty(st);
    assert Serialize(sts) == StanzaText(st);
    StanzaTextAt(s, pos, st);
    assert sts[1..] == [];
    StanzasAtCons(s, pos, sts);
  }

  /** A stanza of a printed text that more stanzas follow. */
  lemma {:induction false} SerializeAtMore(s: string, pos: nat, sts: seq<Stanza>)
    requires |sts| >= 2 && forall i :: 0 <= i < |sts| ==> PrintableStanza(sts[i])
    requires Occurs(s, pos, Serialize(sts)) && pos + |Serialize(sts)| == |s|
    ensures StanzasAt(s, pos, sts) == true
    decreases |sts|, 0
  {
    var st := sts[0];
    var tail := sts[1..];
    var mid := pos + |StanzaText(st)|;
    assert forall i :: 0 <= i < |tail| ==> PrintableStanza(tail[i]) by {
      forall i | 0 <= i < |tail| ensures PrintableStanza(tail[i]) {
        assert tail[i] == sts[i + 1];
      }
    }
    SerializeHead(s, pos, sts);
    SerializeAt(s, mid + 1, tail);
    StanzasAtCons(s, pos, sts);
  }

  /** Printing stanzas and reading the text back gives the same stanzas. */
  lemma {:induction false} RoundTrip(sts: seq<Stanza>)
    requires forall i :: 0 <= i < |sts| ==> PrintableStanza(sts[i])
    ensures Parsed(Serialize(sts)) == sts
  {
    var s := Serialize(sts);
    OccursSuffix(s, 0);
    assert s[0..] == s;
    SerializeAt(s, 0, sts);
    ParseStanzasAt(s, 0, [], sts);
    assert [] + sts == sts;
  }

  // ---------------------------------------------------------------------
  // The quirks

  /** The value scan of the run-on example below: the quote after the
      doubled backslash does not close the value. */
  lemma {:induction false} RunOnScan(s: string)
    requires s == "k \"a\\\\\"\n"
    ensures ScanValue(s, 3, "") == ("a\\\\\"\n", 8)
  {
    var raw := "a\\\\\"\n";
    assert "" + [s[3]] == "a";
    assert "a" + [s[4]] == "a\\";
    assert "a\\" + [s[5]] == "a\\\\";
    assert "a\\\\" + [s[6]] == "a\\\\\"";
    assert "a\\\\\"" + [s[7]] == raw;
    assert ScanValue(s, 8, raw) == (raw, 8);
    assert ScanValue(s, 7, "a\\\\\"") == (raw, 8);
    assert ScanValue(s, 6, "a\\\\") == (raw, 8);
    assert ScanValue(s, 5, "a\\") == (raw, 8);
    assert ScanValue(s, 4, "a") == (raw, 8);
  }

  /** The unescaping of the run-on example below. */
  lemma {:induction false} RunOnUnescape()
    ensures Unescape("a\\\\\"\n") == "a\"\n"
  {
    assert ReplaceAll("a\\\\\"\n", "\\\\", "\\") == "a\\\"\n" by {
      assert ReplaceAll("\n", "\\\\", "\\") == "\n";
      assert "\"\n"[1..] == "\n" && [('"')] + "\n" == "\"\n";
      assert ReplaceAll("\"\n", "\\\\", "\\") == "\"\n";
      assert ReplaceAll("\\\\\"\n", "\\\\", "\\") == "\\\"\n";
    }
    assert ReplaceAll("a\\\"\n", "\\\"", "\"") == "a\"\n" by {
      assert ReplaceAll("\n", "\\\"", "\"") == "\n";
      assert ReplaceAll("\\\"\n", "\\\"", "\"") == "\"\n";
    }
  }

  /** The line read in the run-on example below. */
  lemma {:induction false} RunOnLine(s: string)
    requires s == "k \"a\\\\\"\n"
    ensures ParseLine(s, 0) == (Line("k", ["a\"\n"], None), 10)
  {
    var raw := "a\\\\\"\n";
    assert ScanKey(s, 0, "") == ("k", 2) by {
      assert "" + [s[0]] == "k";
      assert ScanKey(s, 2, "k") == ("k", 2);
      assert ScanKey(s, 1, "k") == ("k", 2);
    }
    RunOnScan(s);
    assert ScanValues(s, 2, [], 0) == ([raw], 0, 9) by {
      assert [] + [raw] == [raw];
      assert ScanValues(s, 9, [raw], 0) == ([raw], 0, 9);
    }
    RunOnUnescape();
    assert UnescapeFrom([raw], 0, 0) == ["a\"\n"];
  }

  /** The text printed for the run-on example below. */
  lemma {:induction false} RunOnText()
    ensures Serialize([[Line("k", ["a\\"], None)]]) == "k \"a\\\\\"\n"
  {
    var l := Line("k", ["a\\"], None);
    assert Escape("a\\") == "a\\\\" by {
      assert Escape("\\") == "\\\\";
      assert "a\\"[1..] == "\\";
    }
    assert ValueList(["a\\"]) == "\"a\\\\\"";
    assert StanzaText([l]) == LineText(l) + StanzaText([]);
  }

  /** A value ending in a backslash does not read back: its closing quote
      follows a backslash, so the value runs on to the next quote not
      preceded by one, here to the end of the text, newline included. */
  lemma {:induction false} BackslashEndedValueRunsOn()
    ensures Serialize([[Line("k", ["a\\"], None)]]) == "k \"a\\\\\"\n"
    ensures Parsed("k \"a\\\\\"\n") == [[Line("k", ["a\"\n"], None)]]
  {
    var s := "k \"a\\\\\"\n";
    var l := Line("k", ["a\"\n"], None);
    RunOnText();
    RunOnLine(s);
    assert [] + [l] == [l];
    assert ParseStanza(s, 0, []) == ([l], 10);
    assert [] + [[l]] == [[l]];
  }

  /** The two replacements run one after the other over the whole value,
      so a backslash freed by the first joins a quote in the second:
      backslash, backslash, quote unescapes to a lone quote. */
  lemma {:induction false} SequentialUnescape()
    ensures Unescape("\\\\\"") == "\""
  {
    assert ReplaceAll("\\\\\"", "\\\\", "\\") == "\\\"";
    assert ReplaceAll("\\\"", "\\\"", "\"") == "\"";
  }
}
