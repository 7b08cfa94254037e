/**
 * monotone's basic_io format as IDF_Scm_Monotone::_parseBasicIO reads it.
 *
 * The text is a list of stanzas separated by blank lines. Each line of a
 * stanza is a key followed either by one hash in square brackets or by
 * one or more quoted values separated by spaces. Inside a value `\` and `"`
 * are escaped with a backslash.
 *
 * The scanner is cursor driven and never rejects its input: reads past the
 * end of the text see PHP's empty string, which matches no delimiter. Its
 * quirks are kept:
 *   - a quote ends a value unless the character before it is a backslash,
 *     so a value whose last character is a backslash runs on past its
 *     closing quote (BackslashEndedValueRunsOn);
 *   - the two unescapings are applied one after the other to the whole
 *     value, `\\` first and `\"` second (SequentialUnescape);
 *   - two values not separated by a space overwrite each other, and a
 *     trailing space or a missing value adds an empty value.
 */
module BasicIO {
  import opened PhpRuntime

  /** One line of a stanza. `hash` is None (PHP null) on a line of values. */
  datatype Line = Line(key: string, values: seq<string>, hash: Option<string>)

  type Stanza = seq<Line>

  /** `$in[$i] == c`; an index past the end reads as "" and matches nothing. */
  predicate IsAt(s: string, i: nat, c: char) {
    i < |s| && s[i] == c
  }

  /** substr(s, start, n) for a start at most one past the end. */
  function Substr(s: string, start: nat, n: nat): (r: string)
    ensures |r| <= n
    ensures start + n <= |s| ==> r == s[start..start + n]
  {
    if start >= |s| then "" else if start + n <= |s| then s[start..start + n] else s[start..]
  }

  /** The characters a key can be made of. */
  predicate IsKeyChar(c: char) {
    c != ' ' && c != '"' && c != '['
  }

  predicate IsKey(k: string) {
    forall i :: 0 <= i < |k| ==> IsKeyChar(k[i])
  }

  /** The key loop: every character up to the first `"` or `[` joins the
      key, except spaces, which are skipped. */
  function ScanKey(s: string, pos: nat, key: string): (r: (string, nat))
    requires pos <= |s|
    ensures pos <= r.1 <= |s|
    decreases |s| - pos
  {
    if pos == |s| || s[pos] == '"' || s[pos] == '[' then (key, pos)
    else ScanKey(s, pos + 1, if s[pos] == ' ' then key else key + [s[pos]])
  }

  /** A key ends at the end of the text or at the first `"` or `[`, and
      holds no space, quote or bracket. */
  lemma {:induction false} ScanKeyStops(s: string, pos: nat, key: string)
    requires pos <= |s|
    ensures var r := ScanKey(s, pos, key);
      && (r.1 < |s| ==> s[r.1] == '"' || s[r.1] == '[')
      && (forall j :: pos <= j < r.1 ==> s[j] != '"' && s[j] != '[')
      && (IsKey(key) ==> IsKey(r.0))
    decreases |s| - pos
  {
    if pos < |s| && s[pos] != '"' && s[pos] != '[' {
      var key' := if s[pos] == ' ' then key else key + [s[pos]];
      ScanKeyStops(s, pos + 1, key');
      if IsKey(key) && s[pos] != ' ' {
        assert IsKey(key') by {
          forall i | 0 <= i < |key'| ensures IsKeyChar(key'[i]) {
            if i < |key| {
              assert key'[i] == key[i];
            }
          }
        }
      }
    }
  }

  /** A quote whose preceding character is not a backslash. */
  predicate ClosesValue(s: string, j: nat)
    requires 1 <= j < |s|
  {
    s[j] == '"' && s[j - 1] != '\\'
  }

  /** The value loop: characters join the value up to the first quote
      whose preceding character is not a backslash. `pos` is past the
      opening quote, so there always is a preceding character. */
  function ScanValue(s: string, pos: nat, v: string): (r: (string, nat))
    requires 1 <= pos <= |s|
    ensures pos <= r.1 <= |s|
    decreases |s| - pos
  {
    if pos == |s| || ClosesValue(s, pos) then (v, pos)
    else ScanValue(s, pos + 1, v + [s[pos]])
  }

  /** A value ends at the end of the text or at a closing quote, i.e. at
      the first quote without a backslash before it. */
  lemma {:induction false} ScanValueStops(s: string, pos: nat, v: string)
    requires 1 <= pos <= |s|
    ensures var r := ScanValue(s, pos, v);
      (r.1 < |s| ==> ClosesValue(s, r.1)) && (forall j :: pos <= j < r.1 ==> !ClosesValue(s, j))
    decreases |s| - pos
  {
    if pos < |s| && !ClosesValue(s, pos) {
      ScanValueStops(s, pos + 1, v + [s[pos]]);
    }
  }

  /** The loop over quoted values. Each value is stored at index
      `valCount`, which only moves on when a space follows the closing
      quote. Returns the values, the final `valCount` and the position. */
  function ScanValues(s: string, pos: nat, vals: seq<string>, valCount: nat): (r: (seq<string>, nat, nat))
    requires valCount <= |vals| <= valCount + 1
    ensures r.1 <= |r.0| <= r.1 + 1
    ensures pos <= r.2
    ensures !IsAt(s, r.2, '"')
    decreases |s| - pos
  {
    if !IsAt(s, pos, '"') then (vals, valCount, pos)
    else
      var v := ScanValue(s, pos + 1, "");
      var stored := if valCount < |vals| then vals[valCount := v.0] else vals + [v.0];
      var next := v.1 + 1;
      if IsAt(s, next, ' ') then ScanValues(s, next + 1, stored, valCount + 1)
      else ScanValues(s, next, stored, valCount)
  }

  /** The str_replace() of one value: `\\` becomes `\` throughout, and
      only then `\"` becomes `"` throughout. */
  function Unescape(v: string): string {
    ReplaceAll(ReplaceAll(v, "\\\\", "\\"), "\\\"", "\"")
  }

  /** The for loop over indices `i` to `valCount`: each value is
      unescaped; an index never assigned reads as null, i.e. "". */
  function UnescapeFrom(vals: seq<string>, i: nat, valCount: nat): (r: seq<string>)
    requires i <= |vals|
    ensures |vals| <= |r|
    ensures i <= valCount + 1 ==> valCount + 1 <= |r|
    decreases valCount + 1 - i
  {
    if i > valCount then vals
    else
      var v := Unescape(if i < |vals| then vals[i] else "");
      UnescapeFrom(if i < |vals| then vals[i := v] else vals + [v], i + 1, valCount)
  }

  /** What every parsed line looks like: a key without spaces, quotes or
      brackets, and either a hash of at most 40 characters and no values,
      or no hash and at least one value. */
  predicate Shaped(l: Line) {
    && IsKey(l.key)
    && (l.hash.Some? ==> l.values == [] && |l.hash.value| <= 40)
    && (l.hash.None? ==> |l.values| >= 1)
  }

  /** One line, from its first character past its newline (which is
      skipped without being looked at). A `[` delimiter gives the next 40
      characters as the hash; a `"` (or nothing) gives the values. */
  function ParseLine(s: string, pos: nat): (r: (Line, nat))
    requires pos <= |s|
    ensures pos < r.1
  {
    var key := ScanKey(s, pos, "");
    if IsAt(s, key.1, '[') then
      (Line(key.0, [], Some(Substr(s, key.1 + 1, 40))), key.1 + 43)
    else
      var v := ScanValues(s, key.1, [], 0);
      (Line(key.0, UnescapeFrom(v.0, 0, v.1), None), v.2 + 1)
  }

  /** The line read has a proper key; it has a hash exactly when its key
      ends at a `[`, the hash being the 40 characters after it, and
      otherwise at least one value. */
  lemma ParseLineShape(s: string, pos: nat)
    requires pos <= |s|
    ensures var r := ParseLine(s, pos);
      var k := ScanKey(s, pos, "").1;
      && Shaped(r.0)
      && (r.0.hash.Some? <==> IsAt(s, k, '['))
      && (IsAt(s, k, '[') && k + 41 <= |s| ==> r.0.hash == Some(s[k + 1..k + 41]))
  {
    ScanKeyStops(s, pos, "");
  }

  /** The line loop of one stanza: lines are read until a newline starts
      a line or the text ends. */
  function ParseStanza(s: string, pos: nat, stanza: Stanza): (r: (Stanza, nat))
    ensures pos <= r.1
    decreases |s| - pos
  {
    if pos >= |s| || s[pos] == '\n' then (stanza, pos)
    else
      var line := ParseLine(s, pos);
      ParseStanza(s, line.1, stanza + [line.0])
  }

  /** A stanza ends at the end of the text or at the newline of a blank
      line, keeps the lines read before it and holds only shaped lines. */
  lemma {:induction false} ParseStanzaShape(s: string, pos: nat, stanza: Stanza)
    ensures var r := ParseStanza(s, pos, stanza);
      && (r.1 < |s| ==> s[r.1] == '\n')
      && |stanza| <= |r.0| && r.0[..|stanza|] == stanza
      && ((forall i :: 0 <= i < |stanza| ==> Shaped(stanza[i])) ==> forall i :: 0 <= i < |r.0| ==> Shaped(r.0[i]))
    decreases |s| - pos
  {
    if pos < |s| && s[pos] != '\n' {
      var line := ParseLine(s, pos);
      ParseLineShape(s, pos);
      ParseStanzaShape(s, line.1, stanza + [line.0]);
      var r := ParseStanza(s, line.1, stanza + [line.0]);
      assert r.0[..|stanza|] == (r.0[..|stanza| + 1])[..|stanza|];
    }
  }

  /** The stanza loop: a stanza, then its blank line, until the text ends. */
  function ParseStanzas(s: string, pos: nat, stanzas: seq<Stanza>): seq<Stanza>
    decreases |s| - pos
  {
    if pos >= |s| then stanzas
    else
      var stanza := ParseStanza(s, pos, []);
      ParseStanzas(s, stanza.1 + 1, stanzas + [stanza.0])
  }

  /** The stanza loop keeps the stanzas read before it and adds only
      stanzas of shaped lines. */
  lemma {:induction false} ParseStanzasShape(s: string, pos: nat, stanzas: seq<Stanza>)
    ensures var r := ParseStanzas(s, pos, stanzas);
      && |stanzas| <= |r| && r[..|stanzas|] == stanzas
      && ((forall i, j :: 0 <= i < |stanzas| && 0 <= j < |stanzas[i]| ==> Shaped(stanzas[i][j])) ==>
            forall i, j :: 0 <= i < |r| && 0 <= j < |r[i]| ==> Shaped(r[i][j]))
    decreases |s| - pos
  {
    if pos < |s| {
      var stanza := ParseStanza(s, pos, []);
      ParseStanzaShape(s, pos, []);
      ParseStanzasShape(s, stanza.1 + 1, stanzas + [stanza.0]);
      var r := ParseStanzas(s, stanza.1 + 1, stanzas + [stanza.0]);
      assert r[..|stanzas|] == (r[..|stanzas| + 1])[..|stanzas|];
    }
  }

  /** The stanzas _parseBasicIO finds in the whole text. */
  function Parsed(s: string): seq<Stanza> {
    ParseStanzas(s, 0, [])
  }

  /** Every line _parseBasicIO returns has a key without spaces, quotes or
      brackets, and either a hash and no values or at least one value. */
  lemma ParsedShaped(s: string)
    ensures var r := Parsed(s);
      forall i, j :: 0 <= i < |r| && 0 <= j < |r[i]| ==> Shaped(r[i][j])
  {
    ParseStanzasShape(s, 0, []);
  }

  // ---------------------------------------------------------------------
  // The scanner itself: one cursor and nested loops

  /** _parseBasicIO. */
  method ParseBasicIO(s: string) returns (stanzas: seq<Stanza>)
    ensures stanzas == Parsed(s)
  {
    var pos: nat := 0;
    stanzas := [];
    while pos < |s|
      invariant ParseStanzas(s, pos, stanzas) == Parsed(s)
      decreases |s| - pos
    {
      ghost var stanzaStart := pos;
      var stanza: Stanza := [];
      while pos < |s|
        invariant stanzaStart <= pos
        invariant ParseStanza(s, pos, stanza) == ParseStanza(s, stanzaStart, [])
        decreases |s| - pos
      {
        if s[pos] == '\n' {
          break;
        }
        var line, next := ReadLine(s, pos);
        stanza := stanza + [line];
        pos := next;
      }
      stanzas := stanzas + [stanza];
      pos := pos + 1;
    }
  }

  /** One line of _parseBasicIO: the key, then the hash or the values,
      then the newline. */
  method ReadLine(s: string, start: nat) returns (line: Line, pos: nat)
    requires start <= |s|
    ensures (line, pos) == ParseLine(s, start)
  {
    var key;
    key, pos := ReadKey(s, start);
    if IsAt(s, pos, '[') {
      pos := pos + 1;                     // opening square bracket
      var hash := Substr(s, pos, 40);
      pos := pos + 40;
      pos := pos + 1;                     // closing square bracket
      line := Line(key, [], Some(hash));
    } else {
      var values, valCount;
      values, valCount, pos := ReadValues(s, pos);
      values := UnescapeValues(values, valCount);
      line := Line(key, values, None);
    }
    pos := pos + 1;                       // newline
  }

  /** The key loop. */
  method ReadKey(s: string, start: nat) returns (key: string, pos: nat)
    requires start <= |s|
    ensures (key, pos) == ScanKey(s, start, "")
  {
    pos := start;
    key := "";
    while pos < |s|
      invariant start <= pos <= |s|
      invariant ScanKey(s, pos, key) == ScanKey(s, start, "")
      decreases |s| - pos
    {
      var ch := s[pos];
      if ch == '"' || ch == '[' {
        break;
      }
      pos := pos + 1;
      if ch == ' ' {
        continue;
      }
      key := key + [ch];
    }
  }

  /** The loop over quoted values. */
  method ReadValues(s: string, start: nat) returns (values: seq<string>, valCount: nat, pos: nat)
    ensures (values, valCount, pos) == ScanValues(s, start, [], 0)
  {
    pos := start;
    values := [];
    valCount := 0;
    while IsAt(s, pos, '"')
      invariant valCount <= |values| <= valCount + 1
      invariant ScanValues(s, pos, values, valCount) == ScanValues(s, start, [], 0)
      decreases |s| - pos
    {
      pos := pos + 1;                     // opening quote
      var v, next := ReadValue(s, pos);
      values := if valCount < |values| then values[valCount := v] else values + [v];
      pos := next + 1;                    // closing quote
      if IsAt(s, pos, ' ') {
        pos := pos + 1;
        valCount := valCount + 1;
      }
    }
  }

  /** The unescaping loop over indices 0 to `valCount`. */
  method UnescapeValues(collected: seq<string>, valCount: nat) returns (values: seq<string>)
    ensures values == UnescapeFrom(collected, 0, valCount)
  {
    values := collected;
    var i := 0;
    while i <= valCount
      invariant i <= |values|
      invariant UnescapeFrom(values, i, valCount) == UnescapeFrom(collected, 0, valCount)
      decreases valCount + 1 - i
    {
      var v := Unescape(if i < |values| then values[i] else "");
      values := if i < |values| then values[i := v] else values + [v];
      i := i + 1;
    }
  }

  /** The characters of one quoted value, up to its closing quote. */
  method ReadValue(s: string, start: nat) returns (v: string, pos: nat)
    requires 1 <= start <= |s|
    ensures (v, pos) == ScanValue(s, start, "")
  {
    v := "";
    pos := start;
    while pos < |s|
      invariant start <= pos <= |s|
      invariant ScanValue(s, pos, v) == ScanValue(s, start, "")
      decreases |s| - pos
    {
      var ch := s[pos];
      var pr := s[pos - 1];
      if ch == '"' && pr != '\\' {
        break;
      }
      pos := pos + 1;
      v := v + [ch];
    }
  }
}
