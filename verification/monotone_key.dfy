/**
 * IDF_Key: the monotone public keys users upload. A key of type "mtn" holds
 * a packet
 *
 *     [pubkey NAME]
 *     DATA
 *     [end]
 *
 * which parseMonotoneKeyData matches with the regular expression
 * `^\[pubkey ([^\]]+)\]\s*(\S+)\s*\[end\]$` (no modifiers). The key name is
 * NAME; the key id is the SHA-1 of NAME ":" DATA, which is how monotone
 * itself names keys.
 *
 * The match is modelled as a function that follows the regular
 * expression's greedy, backtracking order (MatchPacket), and is paired
 * with the packet layout it accepts (Packet, Text, WellFormed): a match
 * is always some well-formed packet's text, and the text of a well-formed
 * packet matches and gives that packet back.
 */
module MonotoneKey {
  import opened PhpRuntime

  /** PCRE's `\s` (no UTF mode): space, tab, line feed, vertical tab, form
      feed and carriage return. */
  predicate IsSpace(c: char) {
    c == ' ' || c == '\t' || c == '\n' || c as int == 11 || c as int == 12 || c == '\r'
  }

  predicate AllSpace(s: string) {
    forall i :: 0 <= i < |s| ==> IsSpace(s[i])
  }

  predicate NoSpace(s: string) {
    forall i :: 0 <= i < |s| ==> !IsSpace(s[i])
  }

  /** The end of the run of whitespace that starts at `i` (greedy `\s*`). */
  function SpaceEnd(s: string, i: nat): (k: nat)
    requires i <= |s|
    ensures i <= k <= |s|
    ensures forall j :: i <= j < k ==> IsSpace(s[j])
    ensures k < |s| ==> !IsSpace(s[k])
    decreases |s| - i
  {
    if i < |s| && IsSpace(s[i]) then SpaceEnd(s, i + 1) else i
  }

  /** The end of the run of non-whitespace that starts at `i` (greedy
      `\S+` before it gives anything back). */
  function WordEnd(s: string, i: nat): (k: nat)
    requires i <= |s|
    ensures i <= k <= |s|
    ensures forall j :: i <= j < k ==> !IsSpace(s[j])
    ensures k < |s| ==> IsSpace(s[k])
    decreases |s| - i
  {
    if i < |s| && !IsSpace(s[i]) then WordEnd(s, i + 1) else i
  }

  /** The parts of a key packet: the name, the whitespace before the data,
      the data, the whitespace after it, and what follows `[end]` (`$`
      also matches before a final line feed). */
  datatype Packet = Packet(name: string, lead: string, data: string, trail: string, eol: string)

  /** The text after the name's `]`. */
  function Body(p: Packet): string {
    p.lead + p.data + p.trail + ("[end]" + p.eol)
  }

  /** The text of a packet. */
  function Text(p: Packet): string {
    "[pubkey " + p.name + "]" + Body(p)
  }

  /** What the regular expression demands of the parts after the name. */
  predicate BodyFormed(p: Packet) {
    && AllSpace(p.lead)
    && p.data != [] && NoSpace(p.data)
    && AllSpace(p.trail)
    && (p.eol == "" || p.eol == "\n")
  }

  /** What the regular expression demands of each part. */
  predicate WellFormed(p: Packet) {
    p.name != [] && ']' !in p.name && BodyFormed(p)
  }

  /** `\s*(\S+)\s*\[end\]$` on the text after `]`: the leading whitespace
      is taken whole; the data first takes the whole run of non-whitespace
      and then gives back one character at a time until the rest matches.
      Answers a packet with an empty name. */
  function MatchBody(r: string): Option<Packet> {
    var a := SpaceEnd(r, 0);
    var b := WordEnd(r, a);
    if b == a then None
    else
      var t := SpaceEnd(r, b);
      if r[t..] == "[end]" || r[t..] == "[end]\n" then
        Some(Packet("", r[..a], r[a..b], r[b..t], r[t + 5..]))
      else if |r| >= 5 && r[|r| - 5..] == "[end]" && a < |r| - 5 <= b then
        Some(Packet("", r[..a], r[a..|r| - 5], "", ""))
      else if |r| >= 6 && r[|r| - 6..] == "[end]\n" && a < |r| - 6 <= b then
        Some(Packet("", r[..a], r[a..|r| - 6], "", "\n"))
      else None
  }

  /** The whole regular expression: `[pubkey `, then the name up to the
      first `]` (at least one character), then the body. */
  function MatchPacket(content: string): Option<Packet> {
    if !StartsWith(content, "[pubkey ") then None
    else
      var i := IndexOf(content, ']', 8);
      if i == 8 || i == |content| then None
      else
        match MatchBody(content[i + 1..])
        case None => None
        case Some(p) => Some(p.(name := content[8..i]))
  }

  /** parseMonotoneKeyData: the name and the data of an "mtn" key. */
  function ParseKeyData(keyType: string, content: string): Result<(string, string)> {
    if keyType != "mtn" then Err(KeyException("key is not a monotone key type"))
    else
      match MatchPacket(content)
      case None => Err(KeyException("invalid key data detected"))
      case Some(p) => Ok((p.name, p.data))
  }

  /** getMonotoneKeyName. */
  function KeyName(keyType: string, content: string): Result<string> {
    match ParseKeyData(keyType, content)
    case Err(e) => Err(e)
    case Ok((name, _)) => Ok(name)
  }

  /** getMonotoneKeyId, for a given SHA-1 function (hex digest). */
  function KeyId(sha1: string -> string, keyType: string, content: string): Result<string> {
    match ParseKeyData(keyType, content)
    case Err(e) => Err(e)
    case Ok((name, data)) => Ok(sha1(name + ":" + data))
  }

  // ---------------------------------------------------------------------
  // The match against the packet layout

  /** A run of whitespace from `i` to `k` followed by something else is
      what `\s*` takes at `i`. */
  lemma SpaceEndIs(s: string, i: nat, k: nat)
    requires i <= k <= |s| && AllSpace(s[i..k]) && (k < |s| ==> !IsSpace(s[k]))
    ensures SpaceEnd(s, i) == k
  {
    assert forall j :: i <= j < k ==> s[j] == s[i..k][j - i];
  }

  /** A run of non-whitespace from `i` to `k` followed by whitespace or the
      end is what `\S+` first takes at `i`. */
  lemma WordEndIs(s: string, i: nat, k: nat)
    requires i <= k <= |s| && NoSpace(s[i..k]) && (k < |s| ==> IsSpace(s[k]))
    ensures WordEnd(s, i) == k
  {
    assert forall j :: i <= j < k ==> s[j] == s[i..k][j - i];
  }

  lemma NoSpaceAppend(x: string, y: string)
    requires NoSpace(x) && NoSpace(y)
    ensures NoSpace(x + y)
  {
    assert forall j :: |x| <= j < |x + y| ==> (x + y)[j] == y[j - |x|];
  }

  /** The four pieces of a concatenation are found again by slicing. */
  lemma Pieces(w: string, x: string, y: string, z: string)
    ensures var r := w + x + y + z;
      var i := |w|; var j := i + |x|; var k := j + |y|;
      r[..i] == w && r[i..j] == x && r[j..k] == y && r[k..] == z
  {
    var r := w + x + y + z;
    assert r[..|w|] == w;
    assert r[|w|..|w| + |x|] == x;
    assert r[|w| + |x|..|w| + |x| + |y|] == y;
    assert r[|w| + |x| + |y|..] == z;
  }

  /** A string cut at three points is the concatenation of the pieces. */
  lemma Cut(r: string, a: nat, b: nat, t: nat)
    requires a <= b <= t <= |r|
    ensures r == r[..a] + r[a..b] + r[b..t] + r[t..]
  {
  }

  /** The body of a packet found by the match is the text it was found in. */
  lemma BodyOfPieces(r: string, a: nat, b: nat, t: nat, eol: string)
    requires a <= b <= t <= |r| && r[t..] == "[end]" + eol
    ensures Body(Packet("", r[..a], r[a..b], r[b..t], eol)) == r
  {
    Cut(r, a, b, t);
  }

  /** The match's first answer: `[end]` right after the whitespace that
      follows the whole run of non-whitespace. */
  lemma SoundAtRun(r: string, a: nat, b: nat, t: nat)
    requires a == SpaceEnd(r, 0) && b == WordEnd(r, a) && a < b && t == SpaceEnd(r, b)
    requires r[t..] == "[end]" || r[t..] == "[end]\n"
    ensures var p := Packet("", r[..a], r[a..b], r[b..t], r[t + 5..]);
      BodyFormed(p) && Body(p) == r
  {
    var eol := r[t + 5..];
    assert r[t..] == "[end]" + eol;
    BodyOfPieces(r, a, b, t, eol);
    assert forall j :: 0 <= j < a ==> r[..a][j] == r[j];
    assert forall j :: 0 <= j < b - a ==> r[a..b][j] == r[a + j];
    assert forall j :: 0 <= j < t - b ==> r[b..t][j] == r[b + j];
  }

  /** The match's other answers: the data gave characters back until
      `[end]` and the end of the text follow it. */
  lemma SoundAtEnd(r: string, a: nat, b: nat, k: nat, eol: string)
    requires a == SpaceEnd(r, 0) && b == WordEnd(r, a) && a < k <= b
    requires (eol == "" || eol == "\n") && k + 5 + |eol| == |r| && r[k..] == "[end]" + eol
    ensures var p := Packet("", r[..a], r[a..k], "", eol);
      BodyFormed(p) && Body(p) == r
  {
    BodyOfPieces(r, a, k, k, eol);
    assert forall j :: 0 <= j < a ==> r[..a][j] == r[j];
    assert forall j :: 0 <= j < k - a ==> r[a..k][j] == r[a + j];
  }

  /** Every body the match accepts is the body of a packet with the parts
      the regular expression demands. */
  lemma MatchBodySound(r: string)
    ensures var m := MatchBody(r);
      m.Some? ==> m.value.name == "" && BodyFormed(m.value) && Body(m.value) == r
  {
    var a := SpaceEnd(r, 0);
    var b := WordEnd(r, a);
    if b != a {
      var t := SpaceEnd(r, b);
      if r[t..] == "[end]" || r[t..] == "[end]\n" {
        SoundAtRun(r, a, b, t);
      } else if |r| >= 5 && r[|r| - 5..] == "[end]" && a < |r| - 5 <= b {
        SoundAtEnd(r, a, b, |r| - 5, "");
      } else if |r| >= 6 && r[|r| - 6..] == "[end]\n" && a < |r| - 6 <= b {
        assert r[|r| - 6..] == "[end]" + "\n";
        SoundAtEnd(r, a, b, |r| - 6, "\n");
      }
    }
  }

  /** Every content the match accepts is the text of the well-formed packet
      it answers. */
  lemma MatchPacketSound(content: string)
    ensures var m := MatchPacket(content);
      m.Some? ==> WellFormed(m.value) && Text(m.value) == content
  {
    if StartsWith(content, "[pubkey ") {
      var i := IndexOf(content, ']', 8);
      if i != 8 && i != |content| {
        var r := content[i + 1..];
        MatchBodySound(r);
        var name := content[8..i];
        assert ']' !in name by {
          assert forall j :: 0 <= j < |name| ==> name[j] == content[8 + j];
        }
        assert content == "[pubkey " + name + "]" + r by {
          Cut(content, 8, i, i + 1);
          assert content[..8] == "[pubkey ";
          assert content[i..i + 1] == [content[i]];
        }
      }
    }
  }

  /** The runs the match finds in a body with a non-empty trail. */
  lemma RunsWithTrail(p: Packet)
    requires BodyFormed(p) && p.trail != []
    ensures var r := Body(p);
      var a := |p.lead|; var b := a + |p.data|; var t := b + |p.trail|;
      && SpaceEnd(r, 0) == a && WordEnd(r, a) == b && SpaceEnd(r, b) == t
      && r[..a] == p.lead && r[a..b] == p.data && r[b..t] == p.trail && r[t..] == "[end]" + p.eol
  {
    var r := Body(p);
    var a := |p.lead|;
    var b := a + |p.data|;
    var t := b + |p.trail|;
    Pieces(p.lead, p.data, p.trail, "[end]" + p.eol);
    assert r[a] == r[a..b][0];
    assert r[b] == r[b..t][0];
    assert r[t] == r[t..][0];
    assert r[0..a] == r[..a];
    SpaceEndIs(r, 0, a);
    WordEndIs(r, a, b);
    SpaceEndIs(r, b, t);
  }

  /** A body with a non-empty trail: the data is the whole run of
      non-whitespace and `[end]` follows the trail. */
  lemma CompleteWithTrail(p: Packet)
    requires BodyFormed(p) && p.trail != []
    ensures MatchBody(Body(p)) == Some(p.(name := ""))
  {
    RunsWithTrail(p);
    var r := Body(p);
    var t := |p.lead| + |p.data| + |p.trail|;
    assert r[t + 5..] == p.eol;
  }

  /** A body with an empty trail and nothing after `[end]`: the run of
      non-whitespace goes on to the end and gives `[end]` back. */
  lemma CompleteAtEnd(p: Packet)
    requires BodyFormed(p) && p.trail == [] && p.eol == ""
    ensures MatchBody(Body(p)) == Some(p.(name := ""))
  {
    var r := Body(p);
    var a := |p.lead|;
    var k := a + |p.data|;
    Pieces(p.lead, p.data, p.trail, "[end]" + p.eol);
    assert r[a] == r[a..k][0];
    assert r[0..a] == r[..a];
    SpaceEndIs(r, 0, a);
    NoSpaceAppend(p.data, "[end]");
    assert r[a..] == p.data + "[end]";
    WordEndIs(r, a, |r|);
    assert r[|r| - 5..] == "[end]";
  }

  /** A body with an empty trail and a line feed after `[end]`: the run of
      non-whitespace stops at the line feed and gives `[end]` back. */
  lemma CompleteBeforeNewline(p: Packet)
    requires BodyFormed(p) && p.trail == [] && p.eol == "\n"
    ensures MatchBody(Body(p)) == Some(p.(name := ""))
  {
    var r := Body(p);
    var a := |p.lead|;
    var k := a + |p.data|;
    Pieces(p.lead, p.data, p.trail, "[end]" + p.eol);
    assert r[a] == r[a..k][0];
    assert r[0..a] == r[..a];
    SpaceEndIs(r, 0, a);
    NoSpaceAppend(p.data, "[end]");
    assert r[a..|r| - 1] == p.data + "[end]";
    assert r[|r| - 1] == '\n';
    WordEndIs(r, a, |r| - 1);
    SpaceEndIs(r, |r| - 1, |r|);
    assert r[|r| - 5..][4] == '\n';
    assert r[|r| - 6..] == "[end]\n";
  }

  /** The body of a well-formed packet matches, and the match gives the
      parts back. */
  lemma MatchBodyComplete(p: Packet)
    requires BodyFormed(p)
    ensures MatchBody(Body(p)) == Some(p.(name := ""))
  {
    if p.trail != [] {
      CompleteWithTrail(p);
    } else if p.eol == "" {
      CompleteAtEnd(p);
    } else {
      CompleteBeforeNewline(p);
    }
  }

  /** Round trip: the text of a well-formed packet matches as that packet. */
  lemma MatchPacketComplete(p: Packet)
    requires WellFormed(p)
    ensures MatchPacket(Text(p)) == Some(p)
  {
    var content := Text(p);
    var r := Body(p);
    var i := 8 + |p.name|;
    Pieces("[pubkey ", p.name, "]", r);
    assert content[i] == content[i..i + 1][0];
    assert IndexOf(content, ']', 8) == i by {
      assert forall j :: 8 <= j < i ==> content[j] == p.name[j - 8];
    }
    MatchBodyComplete(p);
  }

  // ---------------------------------------------------------------------
  // parseMonotoneKeyData and its users

  /** A key of another type is refused; an "mtn" key whose content is no
      well-formed packet is refused as invalid; otherwise the name and the
      data are those of the packet the content spells. */
  lemma ParseKeyDataCases(keyType: string, content: string)
    ensures var r := ParseKeyData(keyType, content);
      && (keyType != "mtn" ==> r == Err(KeyException("key is not a monotone key type")))
      && (keyType == "mtn" && (forall p :: WellFormed(p) ==> Text(p) != content) ==>
            r == Err(KeyException("invalid key data detected")))
      && (r.Ok? ==> exists p :: WellFormed(p) && Text(p) == content && r.value == (p.name, p.data))
  {
    MatchPacketSound(content);
    var m := MatchPacket(content);
    if keyType == "mtn" && m.Some? {
      assert WellFormed(m.value) && Text(m.value) == content;
    }
  }

  /** A parsed name is non-empty and holds no `]`; parsed data is non-empty
      and holds no whitespace. */
  lemma ParsedKeyShape(keyType: string, content: string)
    ensures var r := ParseKeyData(keyType, content);
      r.Ok? ==>
        && r.value.0 != [] && ']' !in r.value.0
        && r.value.1 != [] && NoSpace(r.value.1)
  {
    MatchPacketSound(content);
  }

  /** An "mtn" key holding a well-formed packet parses as its name and its
      data. */
  lemma ParseKeyDataOfPacket(p: Packet)
    requires WellFormed(p)
    ensures ParseKeyData("mtn", Text(p)) == Ok((p.name, p.data))
  {
    MatchPacketComplete(p);
  }

  /** getMonotoneKeyName is the parsed name and fails as the parse does. */
  lemma KeyNameIsParsedName(keyType: string, content: string)
    ensures var r := KeyName(keyType, content);
      var parsed := ParseKeyData(keyType, content);
      && (r.Ok? <==> parsed.Ok?)
      && (r.Ok? ==> r.value == parsed.value.0)
      && (r.Err? ==> r.error == parsed.error)
  {
  }

  /** getMonotoneKeyId hashes name ":" data, and fails as the parse does:
      keys with the same name and data get the same id. */
  lemma KeyIdOfPacket(sha1: string -> string, p: Packet)
    requires WellFormed(p)
    ensures KeyName("mtn", Text(p)) == Ok(p.name)
    ensures KeyId(sha1, "mtn", Text(p)) == Ok(sha1(p.name + ":" + p.data))
  {
    MatchPacketComplete(p);
  }

  /** Two keys whose packets agree on name and data have the same id,
      whatever whitespace surrounds the data. */
  lemma KeyIdIgnoresLayout(sha1: string -> string, p: Packet, q: Packet)
    requires WellFormed(p) && WellFormed(q) && p.name == q.name && p.data == q.data
    ensures KeyId(sha1, "mtn", Text(p)) == KeyId(sha1, "mtn", Text(q))
  {
    KeyIdOfPacket(sha1, p);
    KeyIdOfPacket(sha1, q);
  }
}
