/**
 * The answers of IDF_Scm_Monotone as functions of what monotone answers to
 * each automate command.
 *
 * The stdio connection is represented by a backend: exec() takes the
 * arguments and options of a command and returns monotone's output or the
 * exception it raised. The repository does not change while one page is
 * served, so the same command always gets the same answer; this is what
 * makes the caches of the client (MonotoneClient) invisible in its results.
 *
 * isValidRevision, _getDiff and the rewriting of getAuthAccessUrl only
 * compute over command results and are modelled here directly; the other
 * operations are methods of the client, proved equal to the functions here.
 */
module MonotoneQueries {
  import opened PhpRuntime
  import opened StdioFraming
  import opened BasicIO
  import opened Interpreters

  /** IDF_Scm_Monotone_Stdio::exec: a command's output, or its exception. */
  type Backend = (seq<string>, Options) -> Result<string>

  // ---------------------------------------------------------------------
  // Selectors

  /** _resolveSelector: the revisions a selector expands to, one per
      non-empty line of the output of `select`. */
  function Select(backend: Backend, selector: string): Result<seq<string>> {
    match backend(["select", selector], [])
    case Err(e) => Err(e)
    case Ok(out) => Ok(SplitLines(out))
  }

  /** isValidRevision: the selector names exactly one revision. */
  function IsValidRevision(backend: Backend, commit: string): Result<bool> {
    match Select(backend, commit)
    case Err(e) => Err(e)
    case Ok(revs) => Ok(|revs| == 1)
  }

  /** When monotone lists revisions one per line, a selector is a valid
      revision exactly when it lists one; errors of `select` propagate. */
  lemma ValidRevisionIsSingleLine(backend: Backend, commit: string, revs: seq<string>)
    requires forall i :: 0 <= i < |revs| ==> |revs[i]| > 0 && '\n' !in revs[i]
    requires backend(["select", commit], []) == Ok(JoinLines(revs))
    ensures IsValidRevision(backend, commit) == Ok(|revs| == 1)
  {
    SplitJoinLines(revs);
  }

  // ---------------------------------------------------------------------
  // Diffs

  /** _getDiff: the unified diff from `source` to `target`. An empty source
      stands for the parent of the target ("p:" selector); no diff is made
      when either side resolves to nothing or the source is the root marker
      (an empty revision). */
  function GetDiff(backend: Backend, target: string, source: string): Result<string> {
    var src := if PhpEmpty(source) then "p:" + target else source;
    match Select(backend, target)
    case Err(e) => Err(e)
    case Ok(targets) =>
      match Select(backend, src)
      case Err(e) => Err(e)
      case Ok(sources) =>
        if |targets| == 0 || |sources| == 0 then Ok("")
        else if PhpEmpty(sources[0]) then Ok("")
        else backend(["content_diff"], [("r", [sources[0], targets[0]])])
  }

  /** A diff is fetched for the first revisions of both sides when both
      resolve. */
  lemma DiffOfFirstRevisions(backend: Backend, target: string, source: string, targets: seq<string>, sources: seq<string>)
    requires !PhpEmpty(source)
    requires Select(backend, target) == Ok(targets) && Select(backend, source) == Ok(sources)
    requires |targets| > 0 && |sources| > 0 && !PhpEmpty(sources[0])
    ensures GetDiff(backend, target, source) == backend(["content_diff"], [("r", [sources[0], targets[0]])])
  {
  }

  /** Every outcome of _getDiff: the errors of resolving the target and
      then the source propagate; no diff (the empty text) when either side
      resolves to nothing or the source's first revision is empty (a root);
      otherwise the content_diff of the first revisions of both sides. */
  lemma GetDiffOutcomes(backend: Backend, target: string, source: string)
    ensures var src := if PhpEmpty(source) then "p:" + target else source;
      var targets := Select(backend, target);
      var sources := Select(backend, src);
      var r := GetDiff(backend, target, source);
      && (targets.Err? ==> r == Err(targets.error))
      && (targets.Ok? && sources.Err? ==> r == Err(sources.error))
      && (targets.Ok? && sources.Ok? && (|targets.value| == 0 || |sources.value| == 0) ==> r == Ok(""))
      && (targets.Ok? && sources.Ok? && |targets.value| > 0 && |sources.value| > 0 ==>
            r == if PhpEmpty(sources.value[0]) then Ok("")
                 else backend(["content_diff"], [("r", [sources.value[0], targets.value[0]])]))
  {
  }

  /** The content_diff request carries the source before the target, as
      two `r` options on the wire. */
  lemma DiffRequestOrder(src: string, tgt: string)
    ensures DecodeFrame(Frame(["content_diff"], [("r", [src, tgt])])) == Some((["content_diff"], [("r", src), ("r", tgt)]))
  {
    DiffOptionPairs(src, tgt);
    FrameRoundTrip(["content_diff"], [("r", [src, tgt])]);
  }

  lemma DiffOptionPairs(src: string, tgt: string)
    ensures OptionPairs([("r", [src, tgt])]) == [("r", src), ("r", tgt)]
  {
    var options: Options := [("r", [src, tgt])];
    assert KeyPairs("r", [src, tgt]) == [("r", src), ("r", tgt)];
    assert OptionPairs(options) == KeyPairs("r", [src, tgt]) + OptionPairs([]);
  }

  /** Without a source, the diff is the one against the target's parent. */
  lemma {:induction false} DiffDefaultsToParent(backend: Backend, target: string, source: string)
    requires PhpEmpty(source)
    ensures GetDiff(backend, target, source) == GetDiff(backend, target, "p:" + target)
  {
    assert !PhpEmpty("p:" + target) by {
      assert ("p:" + target)[0] == 'p';
    }
  }

  // ---------------------------------------------------------------------
  // Access URLs

  /** The rewriting of getAuthAccessUrl: an ssh:// URL gets the user name
      put in front of its host; any other URL is left alone. */
  function AuthAccessUrl(url: string, user: string): string {
    if StartsWith(url, "ssh://") then "ssh://" + user + "@" + url[6..] else url
  }

  /** Taking the user name back out of an authenticated ssh URL. */
  function WithoutUser(url: string, user: string): string
    requires StartsWith(url, "ssh://" + user + "@")
  {
    "ssh://" + url[|user| + 7..]
  }

  /** The rewritten URL starts with ssh://<user>@ exactly when the original
      is an ssh URL, and removing the user gives the original back;
      other URLs are unchanged. */
  lemma AuthAccessUrlAddsUser(url: string, user: string)
    ensures StartsWith(url, "ssh://") ==>
      StartsWith(AuthAccessUrl(url, user), "ssh://" + user + "@") && WithoutUser(AuthAccessUrl(url, user), user) == url
    ensures !StartsWith(url, "ssh://") ==> AuthAccessUrl(url, user) == url
  {
    if StartsWith(url, "ssh://") {
      var r := AuthAccessUrl(url, user);
      var p := "ssh://" + user + "@";
      assert r == p + url[6..];
      assert r[..|p|] == p;
      assert r[|user| + 7..] == url[6..];
      assert url == url[..6] + url[6..];
    }
  }

  // ---------------------------------------------------------------------
  // Certs, branches and tags

  /** What _getCerts answers for a revision when asked afresh. */
  function CertsOf(backend: Backend, rev: string): Result<CertMap> {
    match backend(["certs", rev], [])
    case Err(e) => Err(e)
    case Ok(out) => Ok(Certs(Parsed(out)))
  }

  /** The foreach of getBranches: every branch under its `h:` selector. */
  function BranchMapFrom(names: seq<string>, m: map<string, string>): map<string, string>
    decreases |names|
  {
    if names == [] then m else BranchMapFrom(names[1..], m["h:" + names[0] := names[0]])
  }

  /** What getBranches answers when asked afresh. */
  function BranchesOf(backend: Backend): Result<map<string, string>> {
    match backend(["branches"], [])
    case Err(e) => Err(e)
    case Ok(out) => Ok(BranchMapFrom(SplitLines(out), map[]))
  }

  predicate IsBranchMap(m: map<string, string>) {
    forall k :: k in m ==> StartsWith(k, "h:") && m[k] == k[2..]
  }

  lemma {:induction false} BranchMapFromOf(names: seq<string>, m: map<string, string>)
    requires IsBranchMap(m)
    ensures IsBranchMap(BranchMapFrom(names, m))
    ensures forall b :: b in names ==> "h:" + b in BranchMapFrom(names, m)
    ensures forall k :: k in BranchMapFrom(names, m) ==> k in m || k[2..] in names
    ensures forall k :: k in m ==> k in BranchMapFrom(names, m)
    decreases |names|
  {
    if names != [] {
      var k := "h:" + names[0];
      assert k[..2] == "h:" && k[2..] == names[0];
      var m' := m[k := names[0]];
      BranchMapFromOf(names[1..], m');
      forall b | b in names ensures "h:" + b in BranchMapFrom(names, m) {
        if b != names[0] {
          assert b in names[1..];
        } else {
          assert k in m';
        }
      }
    }
  }

  /** getBranches maps the selector `h:<b>` of every listed branch `b` to
      `b`, and has no other keys. */
  lemma BranchesAreSelectors(names: seq<string>)
    ensures var m := BranchMapFrom(names, map[]);
      && (forall b :: b in names ==> "h:" + b in m && m["h:" + b] == b)
      && (forall k :: k in m ==> StartsWith(k, "h:") && k[2..] in names && m[k] == k[2..])
  {
    BranchMapFromOf(names, map[]);
    var m := BranchMapFrom(names, map[]);
    forall b | b in names ensures m["h:" + b] == b {
      assert ("h:" + b)[2..] == b;
    }
  }

  /** What getTags answers when asked afresh. */
  function TagsOf(backend: Backend): Result<map<string, string>> {
    match backend(["tags"], [])
    case Err(e) => Err(e)
    case Ok(out) => Ok(Tags(Parsed(out)))
  }

  /** _getLastChangeFor: the revision in which `file` last changed, seen
      from `startrev`. */
  function LastChangeOf(backend: Backend, file: string, startrev: string): Result<Option<string>> {
    match backend(["get_content_changed", startrev, file], [])
    case Err(e) => Err(e)
    case Ok(out) => Ok(ContentMark(Parsed(out)))
  }

  // ---------------------------------------------------------------------
  // Unique cert values (inBranches, inTags)

  /** The loop of _getUniqueCertValuesFor before array_unique(): the values
      of cert `certName` of each revision, revision by revision. */
  function CertValuesFrom(backend: Backend, revs: seq<string>, certName: string, acc: seq<string>): Result<seq<string>>
    decreases |revs|
  {
    if revs == [] then Ok(acc)
    else
      match CertsOf(backend, revs[0])
      case Err(e) => Err(e)
      case Ok(certs) => CertValuesFrom(backend, revs[1..], certName, if certName in certs then acc + certs[certName] else acc)
  }

  /** _getUniqueCertValuesFor. */
  function UniqueCertValuesOf(backend: Backend, revs: seq<string>, certName: string): Result<seq<string>> {
    match CertValuesFrom(backend, revs, certName, [])
    case Err(e) => Err(e)
    case Ok(vs) => Ok(Unique(vs))
  }

  /** inBranches (certName "branch") and inTags (certName "tag"). */
  function InCertsOf(backend: Backend, commit: string, certName: string): Result<seq<string>> {
    match Select(backend, commit)
    case Err(e) => Err(e)
    case Ok(revs) => if |revs| == 0 then Ok([]) else UniqueCertValuesOf(backend, revs, certName)
  }

  /** Some revision of `revs` carries value `v` in cert `certName`. */
  predicate CarriedBy(backend: Backend, revs: seq<string>, certName: string, v: string) {
    exists i :: 0 <= i < |revs| && CertsOf(backend, revs[i]).Ok? && v in Lookup(CertsOf(backend, revs[i]).value, certName)
  }

  lemma {:induction false} CertValuesFromOf(backend: Backend, revs: seq<string>, certName: string, acc: seq<string>)
    requires forall i :: 0 <= i < |revs| ==> CertsOf(backend, revs[i]).Ok?
    ensures CertValuesFrom(backend, revs, certName, acc).Ok?
    ensures forall v :: v in CertValuesFrom(backend, revs, certName, acc).value <==> v in acc || CarriedBy(backend, revs, certName, v)
    decreases |revs|
  {
    if revs != [] {
      var certs := CertsOf(backend, revs[0]).value;
      var acc' := if certName in certs then acc + certs[certName] else acc;
      CertValuesFromOf(backend, revs[1..], certName, acc');
      forall v ensures CarriedBy(backend, revs, certName, v) <==> v in Lookup(certs, certName) || CarriedBy(backend, revs[1..], certName, v) {
        if CarriedBy(backend, revs[1..], certName, v) {
          var i :| 0 <= i < |revs[1..]| && CertsOf(backend, revs[1..][i]).Ok? && v in Lookup(CertsOf(backend, revs[1..][i]).value, certName);
          assert revs[1..][i] == revs[i + 1];
        }
        if CarriedBy(backend, revs, certName, v) {
          var i :| 0 <= i < |revs| && CertsOf(backend, revs[i]).Ok? && v in Lookup(CertsOf(backend, revs[i]).value, certName);
          if i > 0 {
            assert revs[1..][i - 1] == revs[i];
          }
        }
      }
    }
  }

  /** When every revision's certs can be read, _getUniqueCertValuesFor
      lists each value that some revision carries in the named cert, each
      once, and nothing else. */
  lemma UniqueCertValuesAreCarried(backend: Backend, revs: seq<string>, certName: string)
    requires forall i :: 0 <= i < |revs| ==> CertsOf(backend, revs[i]).Ok?
    ensures UniqueCertValuesOf(backend, revs, certName).Ok?
    ensures var vs := UniqueCertValuesOf(backend, revs, certName).value;
      && (forall v :: v in vs <==> CarriedBy(backend, revs, certName, v))
      && (forall i, j :: 0 <= i < j < |vs| ==> vs[i] != vs[j])
  {
    CertValuesFromOf(backend, revs, certName, []);
  }

  // ---------------------------------------------------------------------
  // Manifest entries (getTree, getPathInfo)

  datatype Kind = Tree | Blob

  /** The last change of an entry: its revision, the authors and the
      change logs (dates are not modelled). */
  datatype Change = Change(rev: string, author: string, log: string)

  /** One entry of a tree listing or a path lookup. `hash` is absent for
      directories; `change` is absent when no content mark was found. */
  datatype Entry = Entry(file: string, fullpath: string, kind: Kind, hash: Option<string>, size: nat, change: Option<Change>)

  /** The author and log fields built from a revision's certs. */
  function ChangeOf(rev: string, certs: CertMap): Change {
    Change(rev, Implode(", ", Lookup(certs, "author")), Implode("\n---\n", Lookup(certs, "changelog")))
  }

  /** The kind, hash and size of the entry of a manifest stanza: a `dir`
      stanza is a tree of size 0; any other is a blob whose size is the
      length of the file content fetched by its hash. */
  function ContentOf(backend: Backend, st: Stanza): Result<(Kind, Option<string>, nat)> {
    if FirstKey(st) == "dir" then Ok((Tree, None, 0))
    else
      var hash := SecondHash(st);
      match backend(["get_file", if hash.Some? then hash.value else ""], [])
      case Err(e) => Err(e)
      case Ok(content) => Ok((Blob, hash, |content|))
  }

  /** The last change of a path, with the certs of that revision. */
  function ChangeFor(backend: Backend, path: string, rev0: string): Result<Option<Change>> {
    match LastChangeOf(backend, path, rev0)
    case Err(e) => Err(e)
    case Ok(None) => Ok(None)
    case Ok(Some(rev)) =>
      match CertsOf(backend, rev)
      case Err(e) => Err(e)
      case Ok(certs) => Ok(Some(ChangeOf(rev, certs)))
  }

  /** The entry getTree and getPathInfo build for one manifest stanza. */
  function DescribeOf(backend: Backend, st: Stanza, file: string, rev0: string): Result<Entry> {
    var path := FirstPath(st);
    match ContentOf(backend, st)
    case Err(e) => Err(e)
    case Ok((kind, hash, size)) =>
      match ChangeFor(backend, path, rev0)
      case Err(e) => Err(e)
      case Ok(change) => Ok(Entry(file, path, kind, hash, size, change))
  }

  /** The foreach of getTree over the manifest stanzas. */
  function TreeFrom(backend: Backend, sts: seq<Stanza>, prefix: string, rev0: string, acc: seq<Entry>): Result<seq<Entry>>
    decreases |sts|
  {
    if sts == [] then Ok(acc)
    else if FirstKey(sts[0]) == "format_version" then TreeFrom(backend, sts[1..], prefix, rev0, acc)
    else
      match ChildName(prefix, FirstPath(sts[0]))
      case None => TreeFrom(backend, sts[1..], prefix, rev0, acc)
      case Some(name) =>
        match DescribeOf(backend, sts[0], name, rev0)
        case Err(e) => Err(e)
        case Ok(entry) => TreeFrom(backend, sts[1..], prefix, rev0, acc + [entry])
  }

  /** getTree: the entries right below `folder` in the first revision the
      commit selector names. */
  function TreeOf(backend: Backend, commit: string, folder: string): Result<seq<Entry>> {
    match Select(backend, commit)
    case Err(e) => Err(e)
    case Ok(revs) =>
      if |revs| == 0 then Ok([])
      else
        match backend(["get_manifest_of", revs[0]], [])
        case Err(e) => Err(e)
        case Ok(out) => TreeFrom(backend, Parsed(out), FolderPrefix(folder), revs[0], [])
  }

  /** An entry listed in the folder with path prefix `prefix`. */
  predicate InFolder(e: Entry, prefix: string) {
    && e.fullpath == prefix + e.file && e.file != [] && '/' !in e.file
    && (e.kind == Tree ==> e.size == 0 && e.hash == None)
  }

  lemma {:induction false} TreeFromInFolder(backend: Backend, sts: seq<Stanza>, prefix: string, rev0: string, acc: seq<Entry>)
    requires forall i :: 0 <= i < |acc| ==> InFolder(acc[i], prefix)
    ensures var r := TreeFrom(backend, sts, prefix, rev0, acc);
      r.Ok? ==> forall i :: 0 <= i < |r.value| ==> InFolder(r.value[i], prefix)
    decreases |sts|
  {
    if sts != [] && FirstKey(sts[0]) != "format_version" {
      var path := FirstPath(sts[0]);
      match ChildName(prefix, path)
      case None =>
        TreeFromInFolder(backend, sts[1..], prefix, rev0, acc);
      case Some(name) =>
        ChildNameOf(prefix, path);
        var d := DescribeOf(backend, sts[0], name, rev0);
        if d.Ok? {
          assert InFolder(d.value, prefix);
          TreeFromInFolder(backend, sts[1..], prefix, rev0, acc + [d.value]);
        }
    } else if sts != [] {
      TreeFromInFolder(backend, sts[1..], prefix, rev0, acc);
    }
  }

  /** Every entry getTree lists is a single non-empty path segment right
      below the folder, and directories are listed with size 0 and no hash. */
  lemma TreeEntriesInFolder(backend: Backend, commit: string, folder: string)
    ensures var r := TreeOf(backend, commit, folder);
      r.Ok? ==> forall i :: 0 <= i < |r.value| ==> InFolder(r.value[i], FolderPrefix(folder))
  {
    var revs := Select(backend, commit);
    if revs.Ok? && |revs.value| > 0 {
      var out := backend(["get_manifest_of", revs.value[0]], []);
      if out.Ok? {
        TreeFromInFolder(backend, Parsed(out.value), FolderPrefix(folder), revs.value[0], []);
      }
    }
  }

  /** A manifest stanza getTree lists in the folder with path prefix
      `prefix`: any stanza but the format version whose path is the prefix
      followed by one non-empty segment without a slash. */
  ghost predicate IsChildStanza(st: Stanza, prefix: string) {
    && FirstKey(st) != "format_version"
    && exists name :: FirstPath(st) == prefix + name && name != [] && '/' !in name
  }

  /** The stanzas of a manifest that are listed in the folder, in manifest
      order. */
  ghost function Children(sts: seq<Stanza>, prefix: string): seq<Stanza>
    decreases |sts|
  {
    if sts == [] then []
    else (if IsChildStanza(sts[0], prefix) then [sts[0]] else []) + Children(sts[1..], prefix)
  }

  /** The entries `v` list the stanzas `cs` after `acc`, each as DescribeOf
      describes it under its file name. */
  ghost predicate ListsAfter(backend: Backend, cs: seq<Stanza>, rev0: string, acc: seq<Entry>, v: seq<Entry>) {
    && |v| == |acc| + |cs| && v[..|acc|] == acc
    && forall i :: 0 <= i < |cs| ==> DescribeOf(backend, cs[i], v[|acc| + i].file, rev0) == Ok(v[|acc| + i])
  }

  /** Listing one described stanza and then `cs` after `acc + [e]` lists
      the stanza followed by `cs` after `acc`. */
  lemma ListsAfterCons(backend: Backend, st: Stanza, cs: seq<Stanza>, rev0: string, acc: seq<Entry>, e: Entry, v: seq<Entry>)
    requires DescribeOf(backend, st, e.file, rev0) == Ok(e)
    requires ListsAfter(backend, cs, rev0, acc + [e], v)
    ensures ListsAfter(backend, [st] + cs, rev0, acc, v)
  {
    assert v[..|acc|] == v[..|acc| + 1][..|acc|] == acc;
    assert v[|acc|] == v[..|acc| + 1][|acc|] == e;
    forall i | 0 <= i < |[st] + cs|
      ensures DescribeOf(backend, ([st] + cs)[i], v[|acc| + i].file, rev0) == Ok(v[|acc| + i])
    {
      if i > 0 {
        assert ([st] + cs)[i] == cs[i - 1];
        assert |acc + [e]| + (i - 1) == |acc| + i;
      }
    }
  }

  lemma ChildrenSkip(sts: seq<Stanza>, prefix: string)
    requires sts != [] && !IsChildStanza(sts[0], prefix)
    ensures Children(sts, prefix) == Children(sts[1..], prefix)
  {
  }

  lemma ChildrenTake(sts: seq<Stanza>, prefix: string)
    requires sts != [] && IsChildStanza(sts[0], prefix)
    ensures Children(sts, prefix) == [sts[0]] + Children(sts[1..], prefix)
  {
  }

  /** The foreach of getTree keeps the entries gathered so far and then
      lists every child stanza of the manifest once, in manifest order, as
      DescribeOf describes it under its file name. */
  lemma {:induction false} TreeFromChildren(backend: Backend, sts: seq<Stanza>, prefix: string, rev0: string, acc: seq<Entry>)
    ensures var r := TreeFrom(backend, sts, prefix, rev0, acc);
      r.Ok? ==> ListsAfter(backend, Children(sts, prefix), rev0, acc, r.value)
    decreases |sts|
  {
    if sts != [] {
      var r := TreeFrom(backend, sts, prefix, rev0, acc);
      if FirstKey(sts[0]) == "format_version" {
        ChildrenSkip(sts, prefix);
        TreeFromChildren(backend, sts[1..], prefix, rev0, acc);
      } else {
        var path := FirstPath(sts[0]);
        ChildNameOf(prefix, path);
        match ChildName(prefix, path)
        case None =>
          ChildrenSkip(sts, prefix);
          TreeFromChildren(backend, sts[1..], prefix, rev0, acc);
        case Some(name) =>
          ChildrenTake(sts, prefix);
          var d := DescribeOf(backend, sts[0], name, rev0);
          if d.Ok? {
            TreeFromChildren(backend, sts[1..], prefix, rev0, acc + [d.value]);
            if r.Ok? {
              assert d.value.file == name;
              ListsAfterCons(backend, sts[0], Children(sts[1..], prefix), rev0, acc, d.value, r.value);
            }
          }
      }
    } else {
      assert TreeFrom(backend, sts, prefix, rev0, acc) == Ok(acc);
      assert acc[..|acc|] == acc;
    }
  }

  /** getTree lists exactly the child stanzas of the manifest of the first
      selected revision, once each and in manifest order, each described
      under its file name; with no selected revision it lists nothing. */
  lemma TreeListsChildren(backend: Backend, commit: string, folder: string)
    ensures var r := TreeOf(backend, commit, folder);
      var revs := Select(backend, commit);
      && (revs.Ok? && |revs.value| == 0 ==> r == Ok([]))
      && (r.Ok? && revs.Ok? && |revs.value| > 0 ==>
            var out := backend(["get_manifest_of", revs.value[0]], []);
            var cs := Children(Parsed(out.value), FolderPrefix(folder));
            && out.Ok? && |r.value| == |cs|
            && forall i :: 0 <= i < |cs| ==> DescribeOf(backend, cs[i], r.value[i].file, revs.value[0]) == Ok(r.value[i]))
  {
    var revs := Select(backend, commit);
    if revs.Ok? && |revs.value| > 0 {
      var out := backend(["get_manifest_of", revs.value[0]], []);
      if out.Ok? {
        TreeFromChildren(backend, Parsed(out.value), FolderPrefix(folder), revs.value[0], []);
      }
    }
  }

  /** pathinfo()'s basename for the paths monotone reports: the text after
      the last slash. */
  function Basename(path: string): string
    decreases |path|
  {
    if path == [] || path[|path| - 1] == '/' then [] else Basename(path[..|path| - 1]) + [path[|path| - 1]]
  }

  /** A manifest stanza describing exactly the path `file`. */
  predicate Describes(st: Stanza, file: string) {
    FirstKey(st) != "format_version" && FirstPath(st) == file
  }

  /** The foreach of getPathInfo: the first stanza whose path is `file`. */
  function PathInfoFrom(backend: Backend, sts: seq<Stanza>, file: string, rev0: string): Result<Option<Entry>>
    decreases |sts|
  {
    if sts == [] then Ok(None)
    else if !Describes(sts[0], file) then PathInfoFrom(backend, sts[1..], file, rev0)
    else
      match DescribeOf(backend, sts[0], Basename(file), rev0)
      case Err(e) => Err(e)
      case Ok(entry) => Ok(Some(entry))
  }

  /** getPathInfo. Without a commit the head of the main branch is used. */
  function PathInfoOf(backend: Backend, file: string, commit: Option<string>, mainBranch: string): Result<Option<Entry>> {
    var selector := if commit.Some? then commit.value else "h:" + mainBranch;
    match Select(backend, selector)
    case Err(e) => Err(e)
    case Ok(revs) =>
      if |revs| == 0 then Ok(None)
      else
        match backend(["get_manifest_of", revs[0]], [])
        case Err(e) => Err(e)
        case Ok(out) => PathInfoFrom(backend, Parsed(out), file, revs[0])
  }

  /** An entry result wrapped as a found path. */
  function Found(d: Result<Entry>): Result<Option<Entry>> {
    match d
    case Err(e) => Err(e)
    case Ok(entry) => Ok(Some(entry))
  }

  /** getPathInfo finds nothing exactly when no stanza describes the path;
      otherwise it describes the first stanza that does, whose full path is
      the path asked for. */
  lemma {:induction false} PathInfoIsFirstExactMatch(backend: Backend, sts: seq<Stanza>, file: string, rev0: string)
    ensures PathInfoFrom(backend, sts, file, rev0) == Ok(None) <==> forall i :: 0 <= i < |sts| ==> !Describes(sts[i], file)
    ensures forall j :: 0 <= j < |sts| && Describes(sts[j], file) && (forall k :: 0 <= k < j ==> !Describes(sts[k], file)) ==>
      PathInfoFrom(backend, sts, file, rev0) == Found(DescribeOf(backend, sts[j], Basename(file), rev0))
    ensures var r := PathInfoFrom(backend, sts, file, rev0);
      r.Ok? && r.value.Some? ==> r.value.value.fullpath == file
    decreases |sts|
  {
    if sts != [] && !Describes(sts[0], file) {
      PathInfoIsFirstExactMatch(backend, sts[1..], file, rev0);
      forall j | 0 < j < |sts| && Describes(sts[j], file) && (forall k :: 0 <= k < j ==> !Describes(sts[k], file))
        ensures PathInfoFrom(backend, sts, file, rev0) == Found(DescribeOf(backend, sts[j], Basename(file), rev0))
      {
        assert sts[1..][j - 1] == sts[j];
        forall k | 0 <= k < j - 1 ensures !Describes(sts[1..][k], file) {
          assert sts[1..][k] == sts[k + 1];
        }
      }
      if forall i :: 0 <= i < |sts[1..]| ==> !Describes(sts[1..][i], file) {
        forall i | 0 <= i < |sts| ensures !Describes(sts[i], file) {
          if i > 0 {
            assert sts[i] == sts[1..][i - 1];
          }
        }
      }
    }
  }

  // ---------------------------------------------------------------------
  // Large commits

  /** isCommitLarge: more than 100 files added or patched in the first
      revision the selector names. An empty commit falls back to the
      selector `fallback` (the source derives it from the main branch). */
  function IsCommitLargeOf(backend: Backend, commit: string, fallback: string): Result<bool> {
    var selector := if PhpEmpty(commit) then fallback else commit;
    match Select(backend, selector)
    case Err(e) => Err(e)
    case Ok(revs) =>
      if |revs| == 0 then Ok(false)
      else
        match backend(["get_revision", revs[0]], [])
        case Err(e) => Err(e)
        case Ok(out) => Ok(NewAndPatched(Parsed(out)) > 100)
  }

  /** The indices of the stanzas that add or patch a file. */
  ghost function NewOrPatchedIndices(sts: seq<Stanza>): set<int> {
    set i | 0 <= i < |sts| && IsNewOrPatched(sts[i])
  }

  /** The counting loop's count is the number of stanzas that add or patch
      a file. */
  lemma {:induction false} NewAndPatchedIsCount(sts: seq<Stanza>)
    ensures NewAndPatched(sts) == |NewOrPatchedIndices(sts)|
    decreases |sts|
  {
    if sts == [] {
      assert NewOrPatchedIndices(sts) == {};
    } else {
      var p := sts[..|sts| - 1];
      var x := sts[|sts| - 1];
      assert p + [x] == sts;
      NewAndPatchedIsCount(p);
      NewAndPatchedAppend(p, [x]);
      var extra: set<int> := if IsNewOrPatched(x) then {|p|} else {};
      assert NewOrPatchedIndices(sts) == NewOrPatchedIndices(p) + extra;
      assert |p| !in NewOrPatchedIndices(p);
    }
  }

  /** isCommitLarge: errors propagate; a selector naming no revision is not
      large; otherwise the first revision is large exactly when more than
      100 of its stanzas add or patch a file. */
  lemma IsCommitLargeCounts(backend: Backend, commit: string, fallback: string)
    ensures var revs := Select(backend, if PhpEmpty(commit) then fallback else commit);
      var r := IsCommitLargeOf(backend, commit, fallback);
      && (revs.Err? ==> r == Err(revs.error))
      && (revs.Ok? && |revs.value| == 0 ==> r == Ok(false))
      && (revs.Ok? && |revs.value| > 0 ==>
            var out := backend(["get_revision", revs.value[0]], []);
            && (out.Err? ==> r == Err(out.error))
            && (out.Ok? ==> r == Ok(|NewOrPatchedIndices(Parsed(out.value))| > 100)))
  {
    var revs := Select(backend, if PhpEmpty(commit) then fallback else commit);
    if revs.Ok? && |revs.value| > 0 {
      var out := backend(["get_revision", revs.value[0]], []);
      if out.Ok? {
        NewAndPatchedIsCount(Parsed(out.value));
      }
    }
  }

  /** A revision whose description has at most 100 stanzas is never large. */
  lemma SmallRevisionIsNotLarge(backend: Backend, commit: string, revs: seq<string>, out: string)
    requires !PhpEmpty(commit) && Select(backend, commit) == Ok(revs) && |revs| > 0
    requires backend(["get_revision", revs[0]], []) == Ok(out) && |Parsed(out)| <= 100
    ensures IsCommitLargeOf(backend, commit, "") == Ok(false)
  {
    NewAndPatchedAppend(Parsed(out), []);
  }

  // ---------------------------------------------------------------------
  // Anonymous access URL

  /** The branch getAnonymousAccessUrl puts in the URL: the main branch,
      or for a commit that resolves, the first branch cert of its first
      revision ("*" when it has none). */
  function AccessBranchOf(backend: Backend, mainBranch: string, commit: string): Result<string> {
    if PhpEmpty(commit) then Ok(mainBranch)
    else
      match Select(backend, commit)
      case Err(e) => Err(e)
      case Ok(revs) =>
        if |revs| == 0 then Ok(mainBranch)
        else
          match CertsOf(backend, revs[0])
          case Err(e) => Err(e)
          case Ok(certs) =>
            var branches := Lookup(certs, "branch");
            Ok(if |branches| == 0 then "*" else branches[0])
  }

  /** getAnonymousAccessUrl, given the configured remote URL already filled
      in with the project's short name. */
  function AnonymousAccessUrlOf(backend: Backend, mainBranch: string, commit: string, remoteUrl: string): Result<string> {
    match AccessBranchOf(backend, mainBranch, commit)
    case Err(e) => Err(e)
    case Ok(branch) => Ok(if PhpEmpty(remoteUrl) then "" else remoteUrl + "?" + branch)
  }
}
