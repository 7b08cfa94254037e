/**
 * What IDF_Scm_Monotone reads out of the basic_io stanzas that monotone's
 * automate commands answer with: the certs of a revision, the tag list,
 * the content mark of a file, the size of a revision's change set and the
 * entries of one folder of a manifest.
 *
 * Each interpreter is a spec function that follows the source's nested
 * foreach loops, an independent reference definition it is proved equal
 * to, and (where the source loops and updates variables) a method with
 * those loops proved against the spec function.
 */
module Interpreters {
  import opened PhpRuntime
  import opened BasicIO

  // ---------------------------------------------------------------------
  // Reading fields of lines and stanzas as PHP does

  /** `$line['values'][0]`; a line holding a hash has no values and reads
      as null, taken as "". */
  function FirstValue(l: Line): string {
    if |l.values| > 0 then l.values[0] else ""
  }

  /** `$line['hash']` used as an array key: null becomes "". */
  function HashKey(l: Line): string {
    if l.hash.Some? then l.hash.value else ""
  }

  /** `$stanza[0]['key']`; a stanza without lines reads as null, taken as "". */
  function FirstKey(st: Stanza): string {
    if |st| > 0 then st[0].key else ""
  }

  /** `$stanza[0]['values'][0]`: the path of a manifest stanza. */
  function FirstPath(st: Stanza): string {
    if |st| > 0 then FirstValue(st[0]) else ""
  }

  /** `$stanza[1]['hash']`: the content hash of a file stanza. */
  function SecondHash(st: Stanza): Option<string> {
    if |st| > 1 then st[1].hash else None
  }

  // ---------------------------------------------------------------------
  // A labelled line: the shape shared by the cert and the tag loops

  /** The inner loop of _getCerts and getTags: lines are read in order; a
      line keyed `nameKey` records its first value as the current name and
      the loop continues; the first line keyed `target` ends the loop and
      is returned with the current name. */
  function LabelledFrom(st: Stanza, i: nat, nameKey: string, target: string, name: string): Option<(string, Line)>
    decreases |st| - i
  {
    if i >= |st| then None
    else if st[i].key == nameKey then LabelledFrom(st, i + 1, nameKey, target, FirstValue(st[i]))
    else if st[i].key == target then Some((name, st[i]))
    else LabelledFrom(st, i + 1, nameKey, target, name)
  }

  /** The loop started with the name still null. */
  function Labelled(st: Stanza, nameKey: string, target: string): Option<(string, Line)> {
    LabelledFrom(st, 0, nameKey, target, "")
  }

  /** Reference: the first value of the last line keyed `nameKey`, or "". */
  function LastLabel(lines: seq<Line>, nameKey: string): string {
    if lines == [] then ""
    else if lines[|lines| - 1].key == nameKey then FirstValue(lines[|lines| - 1])
    else LastLabel(lines[..|lines| - 1], nameKey)
  }

  lemma {:induction false} LabelledFromNone(st: Stanza, i: nat, nameKey: string, target: string, name: string)
    requires nameKey != target
    ensures LabelledFrom(st, i, nameKey, target, name).None? <==> forall k :: i <= k < |st| ==> st[k].key != target
    decreases |st| - i
  {
    if i < |st| && st[i].key != target {
      LabelledFromNone(st, i + 1, nameKey, target, if st[i].key == nameKey then FirstValue(st[i]) else name);
    }
  }

  lemma {:induction false} LabelledFromAt(st: Stanza, i: nat, nameKey: string, target: string, name: string, j: nat)
    requires nameKey != target
    requires i <= j < |st| && st[j].key == target && forall k :: i <= k < j ==> st[k].key != target
    requires name == LastLabel(st[..i], nameKey)
    ensures LabelledFrom(st, i, nameKey, target, name) == Some((LastLabel(st[..j], nameKey), st[j]))
    decreases j - i
  {
    if i < j {
      assert st[..i + 1][..i] == st[..i];
      if st[i].key == nameKey {
        LabelledFromAt(st, i + 1, nameKey, target, FirstValue(st[i]), j);
      } else {
        LabelledFromAt(st, i + 1, nameKey, target, name, j);
      }
    }
  }

  /** A stanza yields a labelled line exactly when it has a line keyed
      `target`; the line is the first such line and the name is the first
      value of the last `nameKey` line before it ("" when there is none). */
  lemma LabelledIsFirstTarget(st: Stanza, nameKey: string, target: string)
    requires nameKey != target
    ensures Labelled(st, nameKey, target).Some? <==> exists j :: 0 <= j < |st| && st[j].key == target
    ensures forall j :: 0 <= j < |st| && st[j].key == target && (forall k :: 0 <= k < j ==> st[k].key != target) ==>
      Labelled(st, nameKey, target) == Some((LastLabel(st[..j], nameKey), st[j]))
  {
    LabelledFromNone(st, 0, nameKey, target, "");
    forall j | 0 <= j < |st| && st[j].key == target && (forall k :: 0 <= k < j ==> st[k].key != target)
      ensures Labelled(st, nameKey, target) == Some((LastLabel(st[..j], nameKey), st[j]))
    {
      assert st[..0] == [];
      LabelledFromAt(st, 0, nameKey, target, "", j);
    }
  }

  // ---------------------------------------------------------------------
  // Certs (_getCerts)

  /** The certs of one revision: cert name to its values in arrival order. */
  type CertMap = map<string, seq<string>>

  /** `$certs[$name]`, a missing name reading as no values. */
  function Lookup(certs: CertMap, name: string): seq<string> {
    if name in certs then certs[name] else []
  }

  /** The cert one stanza of `mtn automate certs` contributes: the first
      value of its first `value` line, under the most recent `name`. */
  function StanzaCert(st: Stanza): Option<(string, string)> {
    match Labelled(st, "name", "value")
    case None => None
    case Some((name, l)) => Some((name, FirstValue(l)))
  }

  function AddCert(certs: CertMap, cert: Option<(string, string)>): CertMap {
    match cert
    case None => certs
    case Some((name, v)) => certs[name := Lookup(certs, name) + [v]]
  }

  /** The outer foreach of _getCerts over the stanzas. */
  function CertsFrom(sts: seq<Stanza>, certs: CertMap): CertMap
    decreases |sts|
  {
    if sts == [] then certs else CertsFrom(sts[1..], AddCert(certs, StanzaCert(sts[0])))
  }

  function Certs(sts: seq<Stanza>): CertMap {
    CertsFrom(sts, map[])
  }

  /** Reference: the values of the stanzas whose cert is named `name`, in
      stanza order. */
  function ValuesNamed(sts: seq<Stanza>, name: string): seq<string>
    decreases |sts|
  {
    if sts == [] then [] else Named(StanzaCert(sts[0]), name) + ValuesNamed(sts[1..], name)
  }

  /** The value of one cert if it is named `name`. */
  function Named(cert: Option<(string, string)>, name: string): seq<string> {
    match cert
    case Some((n, v)) => if n == name then [v] else []
    case None => []
  }

  lemma AddCertByName(certs: CertMap, cert: Option<(string, string)>, name: string)
    ensures Lookup(AddCert(certs, cert), name) == Lookup(certs, name) + Named(cert, name)
    ensures name in AddCert(certs, cert) <==> name in certs || Named(cert, name) != []
  {
  }

  lemma {:induction false} CertsFromByName(sts: seq<Stanza>, certs: CertMap, name: string)
    ensures Lookup(CertsFrom(sts, certs), name) == Lookup(certs, name) + ValuesNamed(sts, name)
    ensures name in CertsFrom(sts, certs) <==> name in certs || ValuesNamed(sts, name) != []
    decreases |sts|
  {
    if sts != [] {
      var next := AddCert(certs, StanzaCert(sts[0]));
      AddCertByName(certs, StanzaCert(sts[0]), name);
      CertsFromByName(sts[1..], next, name);
    }
  }

  /** _getCerts collects, for every cert name, exactly the values of the
      stanzas carrying that name, in the order monotone sent them; a name
      is a key of the result only if some stanza carries it. */
  lemma CertsByName(sts: seq<Stanza>)
    ensures forall name :: Lookup(Certs(sts), name) == ValuesNamed(sts, name)
    ensures forall name :: name in Certs(sts) <==> ValuesNamed(sts, name) != []
  {
    forall name
      ensures Lookup(Certs(sts), name) == ValuesNamed(sts, name)
      ensures name in Certs(sts) <==> ValuesNamed(sts, name) != []
    {
      CertsFromByName(sts, map[], name);
    }
  }

  /** The loops of _getCerts that turn the parsed stanzas into certs. */
  method CollectCerts(stanzas: seq<Stanza>) returns (certs: CertMap)
    ensures certs == Certs(stanzas)
  {
    certs := map[];
    var k := 0;
    while k < |stanzas|
      invariant k <= |stanzas|
      invariant CertsFrom(stanzas[k..], certs) == Certs(stanzas)
    {
      var st := stanzas[k];
      ghost var before := certs;
      var certname := "";
      var i := 0;
      while i < |st|
        invariant i <= |st| && certs == before
        invariant LabelledFrom(st, i, "name", "value", certname) == Labelled(st, "name", "value")
      {
        if st[i].key == "name" {
          certname := FirstValue(st[i]);
          i := i + 1;
          continue;
        }
        if st[i].key == "value" {
          certs := certs[certname := Lookup(certs, certname) + [FirstValue(st[i])]];
          break;
        }
        i := i + 1;
      }
      assert certs == AddCert(before, StanzaCert(st));
      assert stanzas[k..][1..] == stanzas[k + 1..];
      k := k + 1;
    }
  }

  // ---------------------------------------------------------------------
  // Tags (getTags)

  /** The tag one stanza of `mtn automate tags` contributes: the hash of
      its first `revision` line, with the most recent `tag` name. */
  function StanzaTag(st: Stanza): Option<(string, string)> {
    match Labelled(st, "tag", "revision")
    case None => None
    case Some((name, l)) => Some((HashKey(l), name))
  }

  function AddTag(tags: map<string, string>, tag: Option<(string, string)>): map<string, string> {
    match tag
    case None => tags
    case Some((rev, name)) => tags[rev := name]
  }

  /** The outer foreach of getTags: a later stanza for the same revision
      overwrites an earlier one. */
  function TagsFrom(sts: seq<Stanza>, tags: map<string, string>): map<string, string>
    decreases |sts|
  {
    if sts == [] then tags else TagsFrom(sts[1..], AddTag(tags, StanzaTag(sts[0])))
  }

  function Tags(sts: seq<Stanza>): map<string, string> {
    TagsFrom(sts, map[])
  }

  /** Reference: the name in the last stanza that tags revision `rev`. */
  function LastTag(sts: seq<Stanza>, rev: string): Option<string>
    decreases |sts|
  {
    if sts == [] then None
    else
      var later := LastTag(sts[1..], rev);
      if later.Some? then later
      else match StanzaTag(sts[0]) case Some((r, name)) => if r == rev then Some(name) else None case None => None
  }

  lemma {:induction false} TagsFromByRevision(sts: seq<Stanza>, tags: map<string, string>, rev: string)
    ensures rev in TagsFrom(sts, tags) <==> rev in tags || LastTag(sts, rev).Some?
    ensures rev in TagsFrom(sts, tags) ==>
      TagsFrom(sts, tags)[rev] == if LastTag(sts, rev).Some? then LastTag(sts, rev).value else tags[rev]
    decreases |sts|
  {
    if sts != [] {
      TagsFromByRevision(sts[1..], AddTag(tags, StanzaTag(sts[0])), rev);
    }
  }

  /** getTags maps exactly the revisions some stanza tags, each to the
      name given by the last stanza tagging it. */
  lemma TagsByRevision(sts: seq<Stanza>)
    ensures forall rev :: rev in Tags(sts) <==> LastTag(sts, rev).Some?
    ensures forall rev :: rev in Tags(sts) ==> Tags(sts)[rev] == LastTag(sts, rev).value
  {
    forall rev
      ensures rev in Tags(sts) <==> LastTag(sts, rev).Some?
      ensures rev in Tags(sts) ==> Tags(sts)[rev] == LastTag(sts, rev).value
    {
      TagsFromByRevision(sts, map[], rev);
    }
  }

  /** The loops of getTags that turn the parsed stanzas into the tag map. */
  method CollectTags(stanzas: seq<Stanza>) returns (tags: map<string, string>)
    ensures tags == Tags(stanzas)
  {
    tags := map[];
    var k := 0;
    while k < |stanzas|
      invariant k <= |stanzas|
      invariant TagsFrom(stanzas[k..], tags) == Tags(stanzas)
    {
      var st := stanzas[k];
      ghost var before := tags;
      var tagname := "";
      var i := 0;
      while i < |st|
        invariant i <= |st| && tags == before
        invariant LabelledFrom(st, i, "tag", "revision", tagname) == Labelled(st, "tag", "revision")
      {
        if st[i].key == "tag" {
          tagname := FirstValue(st[i]);
          i := i + 1;
          continue;
        }
        if st[i].key == "revision" {
          tags := tags[HashKey(st[i]) := tagname];
          break;
        }
        i := i + 1;
      }
      assert tags == AddTag(before, StanzaTag(st));
      assert stanzas[k..][1..] == stanzas[k + 1..];
      k := k + 1;
    }
  }

  // ---------------------------------------------------------------------
  // Content marks (_getLastChangeFor)

  /** The first line keyed `key` in one stanza. */
  function FindLine(lines: seq<Line>, key: string): Option<Line>
    decreases |lines|
  {
    if lines == [] then None
    else if lines[0].key == key then Some(lines[0])
    else FindLine(lines[1..], key)
  }

  /** The two foreach loops of _getLastChangeFor: stanza by stanza, the
      first line keyed `key`. */
  function FirstKeyed(sts: seq<Stanza>, key: string): Option<Line>
    decreases |sts|
  {
    if sts == [] then None
    else if FindLine(sts[0], key).Some? then FindLine(sts[0], key)
    else FirstKeyed(sts[1..], key)
  }

  /** Reference: all lines of all stanzas, in order. */
  function AllLines(sts: seq<Stanza>): seq<Line>
    decreases |sts|
  {
    if sts == [] then [] else sts[0] + AllLines(sts[1..])
  }

  lemma {:induction false} FindLineAppend(a: seq<Line>, b: seq<Line>, key: string)
    ensures FindLine(a + b, key) == if FindLine(a, key).Some? then FindLine(a, key) else FindLine(b, key)
    decreases |a|
  {
    if a != [] {
      assert (a + b)[1..] == a[1..] + b;
      FindLineAppend(a[1..], b, key);
    } else {
      assert a + b == b;
    }
  }

  /** Searching stanza by stanza finds the first keyed line of the whole
      reply. */
  lemma {:induction false} FirstKeyedIsFirstLine(sts: seq<Stanza>, key: string)
    ensures FirstKeyed(sts, key) == FindLine(AllLines(sts), key)
    decreases |sts|
  {
    if sts != [] {
      FindLineAppend(sts[0], AllLines(sts[1..]), key);
      FirstKeyedIsFirstLine(sts[1..], key);
    }
  }

  lemma {:induction false} FindLineIsFirst(lines: seq<Line>, key: string)
    ensures FindLine(lines, key).Some? <==> exists j :: 0 <= j < |lines| && lines[j].key == key
    ensures forall j :: 0 <= j < |lines| && lines[j].key == key && (forall k :: 0 <= k < j ==> lines[k].key != key) ==>
      FindLine(lines, key) == Some(lines[j])
    decreases |lines|
  {
    if lines != [] {
      FindLineIsFirst(lines[1..], key);
      if lines[0].key != key {
        forall j | 1 <= j < |lines| && lines[j].key == key && (forall k :: 0 <= k < j ==> lines[k].key != key)
          ensures FindLine(lines, key) == Some(lines[j])
        {
          assert lines[j] == lines[1..][j - 1];
          assert forall k :: 0 <= k < j - 1 ==> lines[1..][k].key != key by {
            forall k | 0 <= k < j - 1 ensures lines[1..][k].key != key {
              assert lines[1..][k] == lines[k + 1];
            }
          }
        }
        if exists j :: 0 <= j < |lines| && lines[j].key == key {
          var j :| 0 <= j < |lines| && lines[j].key == key;
          assert lines[1..][j - 1] == lines[j];
        }
      }
    }
  }

  /** The hash _getLastChangeFor returns: that of the first content_mark
      line; none when there is no such line or it holds no hash. */
  function ContentMark(sts: seq<Stanza>): Option<string> {
    match FirstKeyed(sts, "content_mark")
    case None => None
    case Some(l) => l.hash
  }

  /** The content mark is the hash of the first content_mark line of the
      reply, whatever stanza it is in. */
  lemma ContentMarkIsFirst(sts: seq<Stanza>)
    ensures var lines := AllLines(sts);
      forall j :: 0 <= j < |lines| && lines[j].key == "content_mark" && (forall k :: 0 <= k < j ==> lines[k].key != "content_mark")
        ==> ContentMark(sts) == lines[j].hash
    ensures (forall j :: 0 <= j < |AllLines(sts)| ==> AllLines(sts)[j].key != "content_mark") ==> ContentMark(sts) == None
  {
    FirstKeyedIsFirstLine(sts, "content_mark");
    FindLineIsFirst(AllLines(sts), "content_mark");
  }

  /** The loops of _getLastChangeFor, returning from inside both. */
  method FindContentMark(stanzas: seq<Stanza>) returns (mark: Option<string>)
    ensures mark == ContentMark(stanzas)
  {
    var k := 0;
    while k < |stanzas|
      invariant k <= |stanzas|
      invariant FirstKeyed(stanzas[k..], "content_mark") == FirstKeyed(stanzas, "content_mark")
    {
      var st := stanzas[k];
      var i := 0;
      while i < |st|
        invariant i <= |st|
        invariant FindLine(st[i..], "content_mark") == FindLine(st, "content_mark")
      {
        if st[i].key == "content_mark" {
          return st[i].hash;
        }
        assert st[i..][1..] == st[i + 1..];
        i := i + 1;
      }
      assert stanzas[k..][1..] == stanzas[k + 1..];
      k := k + 1;
    }
    return None;
  }

  // ---------------------------------------------------------------------
  // Change-set size (isCommitLarge)

  predicate IsNewOrPatched(st: Stanza) {
    FirstKey(st) == "patch" || FirstKey(st) == "add_file"
  }

  /** The stanzas of a revision that add or patch a file. */
  function NewAndPatched(sts: seq<Stanza>): (r: nat)
    decreases |sts|
  {
    if sts == [] then 0 else (if IsNewOrPatched(sts[0]) then 1 else 0) + NewAndPatched(sts[1..])
  }

  /** The count adds up over consecutive parts of a revision and is at most
      the number of stanzas. */
  lemma {:induction false} NewAndPatchedAppend(a: seq<Stanza>, b: seq<Stanza>)
    ensures NewAndPatched(a + b) == NewAndPatched(a) + NewAndPatched(b)
    ensures NewAndPatched(a) <= |a|
    decreases |a|
  {
    if a != [] {
      assert (a + b)[1..] == a[1..] + b;
      NewAndPatchedAppend(a[1..], b);
    } else {
      assert a + b == b;
    }
  }

  /** The counting loop of isCommitLarge. */
  method CountNewAndPatched(stanzas: seq<Stanza>) returns (count: nat)
    ensures count == NewAndPatched(stanzas)
  {
    count := 0;
    var k := 0;
    while k < |stanzas|
      invariant k <= |stanzas|
      invariant count + NewAndPatched(stanzas[k..]) == NewAndPatched(stanzas)
    {
      assert stanzas[k..][1..] == stanzas[k + 1..];
      if IsNewOrPatched(stanzas[k]) {
        count := count + 1;
      }
      k := k + 1;
    }
  }

  // ---------------------------------------------------------------------
  // Folder filter (getTree)

  /** getTree's folder argument as a path prefix: "/" and the empty folder
      stand for the root. */
  function FolderPrefix(folder: string): string {
    if folder == "/" || PhpEmpty(folder) then "" else folder + "/"
  }

  /** The match of `#^<prefix>([^/]+)$#` against a path, with the prefix
      read literally: the single path segment right below the folder. */
  function ChildName(prefix: string, path: string): Option<string> {
    if StartsWith(path, prefix) && |path| > |prefix| && '/' !in path[|prefix|..] then Some(path[|prefix|..])
    else None
  }

  /** A path is listed in a folder exactly when it is the folder's prefix
      followed by one non-empty segment without a slash, and the listed
      name is that segment. */
  lemma ChildNameOf(prefix: string, path: string)
    ensures ChildName(prefix, path).Some? <==> exists name :: path == prefix + name && name != [] && '/' !in name
    ensures ChildName(prefix, path).Some? ==> prefix + ChildName(prefix, path).value == path
  {
    if exists name :: path == prefix + name && name != [] && '/' !in name {
      var name :| path == prefix + name && name != [] && '/' !in name;
      assert path[..|prefix|] == prefix && path[|prefix|..] == name;
    }
    if ChildName(prefix, path).Some? {
      assert path == prefix + path[|prefix|..];
    }
  }
}
