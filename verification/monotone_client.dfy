/**
 * IDF_Scm_Monotone: the SCM layer of a monotone project. Every question is
 * answered by sending automate commands over the stdio connection and
 * interpreting the basic_io or line-based output.
 *
 * Three things are cached: the certs of each revision (the static
 * `$certCache` of _getCerts), the branch map and the tag map (entries of
 * `$this->cache`). A cached answer is returned as stored and no command is
 * sent. Since the repository does not change while a page is served, the
 * client keeps every cache entry equal to what a fresh query would give
 * (Valid), and each operation returns exactly what the corresponding
 * function of MonotoneQueries or MonotoneChangeLog computes.
 */
module MonotoneClient {
  import opened PhpRuntime
  import opened StdioFraming
  import opened BasicIO
  import opened Interpreters
  import opened MonotoneQueries
  import opened MonotoneChangeLog

  /** A command as written to monotone: arguments and options. */
  type Command = (seq<string>, Options)

  /** The foreach of getBranches. */
  method CollectBranches(names: seq<string>) returns (res: map<string, string>)
    ensures res == BranchMapFrom(names, map[])
  {
    res := map[];
    var i := 0;
    while i < |names|
      invariant i <= |names|
      invariant BranchMapFrom(names[i..], res) == BranchMapFrom(names, map[])
    {
      assert names[i..][1..] == names[i + 1..];
      res := res["h:" + names[i] := names[i]];
      i := i + 1;
    }
  }

  class Monotone {
    /** The stdio connection to the project's monotone process. */
    const backend: Backend
    /** Revision to its certs. */
    var certCache: map<string, CertMap>
    /** "branches" and "tags" to the answers of getBranches and getTags. */
    var cache: map<string, map<string, string>>
    /** The commands written to monotone so far, in order. */
    ghost var sent: seq<Command>

    /** Every cached answer is the one a fresh query gives. */
    ghost predicate Valid()
      reads this
    {
      && (forall rev :: rev in certCache ==> CertsOf(backend, rev) == Ok(certCache[rev]))
      && ("branches" in cache ==> BranchesOf(backend) == Ok(cache["branches"]))
      && ("tags" in cache ==> TagsOf(backend) == Ok(cache["tags"]))
    }

    constructor(backend: Backend)
      ensures Valid()
      ensures this.backend == backend && certCache == map[] && cache == map[] && sent == []
    {
      this.backend := backend;
      certCache := map[];
      cache := map[];
      sent := [];
    }

    /** stdio->exec. */
    method Exec(args: seq<string>, options: Options) returns (r: Result<string>)
      modifies this`sent
      ensures r == backend(args, options)
      ensures sent == old(sent) + [(args, options)]
    {
      r := backend(args, options);
      sent := sent + [(args, options)];
    }

    /** _resolveSelector. */
    method ResolveSelector(selector: string) returns (r: Result<seq<string>>)
      modifies this`sent
      ensures r == Select(backend, selector)
      ensures sent == old(sent) + [(["select", selector], [])]
    {
      var out := Exec(["select", selector], []);
      if out.Err? {
        return Err(out.error);
      }
      return Ok(SplitLines(out.value));
    }

    /** getBranches. */
    method GetBranches() returns (r: Result<map<string, string>>)
      requires Valid()
      modifies this`sent, this`cache
      ensures Valid()
      ensures r == BranchesOf(backend)
      ensures "branches" in old(cache) ==> cache == old(cache) && sent == old(sent)
      ensures "branches" !in old(cache) ==>
        && sent == old(sent) + [(["branches"], [])]
        && cache == if r.Ok? then old(cache)["branches" := r.value] else old(cache)
    {
      if "branches" in cache {
        return Ok(cache["branches"]);
      }
      var out := Exec(["branches"], []);
      if out.Err? {
        return Err(out.error);
      }
      var res := CollectBranches(SplitLines(out.value));
      cache := cache["branches" := res];
      return Ok(res);
    }

    /** _getCerts. */
    method GetCerts(rev: string) returns (r: Result<CertMap>)
      requires Valid()
      modifies this`sent, this`certCache
      ensures Valid()
      ensures r == CertsOf(backend, rev)
      ensures rev in old(certCache) ==> certCache == old(certCache) && sent == old(sent) && r == Ok(old(certCache)[rev])
      ensures rev !in old(certCache) ==>
        && sent == old(sent) + [(["certs", rev], [])]
        && certCache == if r.Ok? then old(certCache)[rev := r.value] else old(certCache)
    {
      if rev !in certCache {
        var out := Exec(["certs", rev], []);
        if out.Err? {
          return Err(out.error);
        }
        var stanzas := ParseBasicIO(out.value);
        var certs := CollectCerts(stanzas);
        certCache := certCache[rev := certs];
      }
      return Ok(certCache[rev]);
    }

    /** _getUniqueCertValuesFor. */
    method UniqueCertValuesFor(revs: seq<string>, certName: string) returns (r: Result<seq<string>>)
      requires Valid()
      modifies this`sent, this`certCache
      ensures Valid()
      ensures r == UniqueCertValuesOf(backend, revs, certName)
      ensures old(certCache).Keys <= certCache.Keys && old(sent) <= sent
    {
      var certValues: seq<string> := [];
      var i := 0;
      while i < |revs|
        invariant i <= |revs| && Valid()
        invariant old(certCache).Keys <= certCache.Keys && old(sent) <= sent
        invariant CertValuesFrom(backend, revs[i..], certName, certValues) == CertValuesFrom(backend, revs, certName, [])
      {
        var certs := GetCerts(revs[i]);
        if certs.Err? {
          return Err(certs.error);
        }
        if certName in certs.value {
          certValues := certValues + certs.value[certName];
        }
        assert revs[i..][1..] == revs[i + 1..];
        i := i + 1;
      }
      return Ok(Unique(certValues));
    }

    /** inBranches. */
    method InBranches(commit: string) returns (r: Result<seq<string>>)
      requires Valid()
      modifies this`sent, this`certCache
      ensures Valid()
      ensures r == InCertsOf(backend, commit, "branch")
      ensures old(certCache).Keys <= certCache.Keys && old(sent) <= sent
    {
      var revs := ResolveSelector(commit);
      if revs.Err? {
        return Err(revs.error);
      }
      if |revs.value| == 0 {
        return Ok([]);
      }
      r := UniqueCertValuesFor(revs.value, "branch");
    }

    /** inTags. */
    method InTags(commit: string) returns (r: Result<seq<string>>)
      requires Valid()
      modifies this`sent, this`certCache
      ensures Valid()
      ensures r == InCertsOf(backend, commit, "tag")
      ensures old(certCache).Keys <= certCache.Keys && old(sent) <= sent
    {
      var revs := ResolveSelector(commit);
      if revs.Err? {
        return Err(revs.error);
      }
      if |revs.value| == 0 {
        return Ok([]);
      }
      r := UniqueCertValuesFor(revs.value, "tag");
    }

    /** getTags. */
    method GetTags() returns (r: Result<map<string, string>>)
      requires Valid()
      modifies this`sent, this`cache
      ensures Valid()
      ensures r == TagsOf(backend)
      ensures "tags" in old(cache) ==> cache == old(cache) && sent == old(sent)
      ensures "tags" !in old(cache) ==>
        && sent == old(sent) + [(["tags"], [])]
        && cache == if r.Ok? then old(cache)["tags" := r.value] else old(cache)
    {
      if "tags" in cache {
        return Ok(cache["tags"]);
      }
      var out := Exec(["tags"], []);
      if out.Err? {
        return Err(out.error);
      }
      var stanzas := ParseBasicIO(out.value);
      var tags := CollectTags(stanzas);
      cache := cache["tags" := tags];
      return Ok(tags);
    }

    /** _getLastChangeFor. */
    method LastChangeFor(file: string, startrev: string) returns (r: Result<Option<string>>)
      modifies this`sent
      ensures r == LastChangeOf(backend, file, startrev)
      ensures sent == old(sent) + [(["get_content_changed", startrev, file], [])]
    {
      var out := Exec(["get_content_changed", startrev, file], []);
      if out.Err? {
        return Err(out.error);
      }
      var stanzas := ParseBasicIO(out.value);
      var mark := FindContentMark(stanzas);
      return Ok(mark);
    }

    /** The part of getTree and getPathInfo that fills in one entry: kind,
        hash and size, then the last change and its certs. */
    method Describe(st: Stanza, file: string, rev0: string) returns (r: Result<Entry>)
      requires Valid()
      modifies this`sent, this`certCache
      ensures Valid()
      ensures r == DescribeOf(backend, st, file, rev0)
      ensures old(certCache).Keys <= certCache.Keys && old(sent) <= sent
    {
      var path := FirstPath(st);
      var kind, hash, size;
      if FirstKey(st) == "dir" {
        kind, hash, size := Tree, None, 0;
      } else {
        hash := SecondHash(st);
        var content := Exec(["get_file", if hash.Some? then hash.value else ""], []);
        if content.Err? {
          return Err(content.error);
        }
        kind, size := Blob, |content.value|;
      }
      var rev := LastChangeFor(path, rev0);
      if rev.Err? {
        return Err(rev.error);
      }
      var change := None;
      if rev.value.Some? {
        var certs := GetCerts(rev.value.value);
        if certs.Err? {
          return Err(certs.error);
        }
        change := Some(ChangeOf(rev.value.value, certs.value));
      }
      return Ok(Entry(file, path, kind, hash, size, change));
    }

    /** getTree. */
    method GetTree(commit: string, folder: string) returns (r: Result<seq<Entry>>)
      requires Valid()
      modifies this`sent, this`certCache
      ensures Valid()
      ensures r == TreeOf(backend, commit, folder)
      ensures old(certCache).Keys <= certCache.Keys && old(sent) <= sent
    {
      var revs := ResolveSelector(commit);
      if revs.Err? {
        return Err(revs.error);
      }
      if |revs.value| == 0 {
        return Ok([]);
      }
      var rev0 := revs.value[0];
      var out := Exec(["get_manifest_of", rev0], []);
      if out.Err? {
        return Err(out.error);
      }
      var stanzas := ParseBasicIO(out.value);
      var prefix := FolderPrefix(folder);
      var files: seq<Entry> := [];
      var k := 0;
      while k < |stanzas|
        invariant k <= |stanzas| && Valid()
        invariant old(certCache).Keys <= certCache.Keys && old(sent) <= sent
        invariant TreeFrom(backend, stanzas[k..], prefix, rev0, files) == TreeFrom(backend, stanzas, prefix, rev0, [])
      {
        var st := stanzas[k];
        assert stanzas[k..][1..] == stanzas[k + 1..];
        k := k + 1;
        if FirstKey(st) == "format_version" {
          continue;
        }
        var name := ChildName(prefix, FirstPath(st));
        if name.None? {
          continue;
        }
        var entry := Describe(st, name.value, rev0);
        if entry.Err? {
          return Err(entry.error);
        }
        files := files + [entry.value];
      }
      return Ok(files);
    }

    /** getPathInfo. A missing commit stands for the head of the main
        branch, `mainBranch` being what getMainBranch answers. */
    method GetPathInfo(file: string, commit: Option<string>, mainBranch: string) returns (r: Result<Option<Entry>>)
      requires Valid()
      modifies this`sent, this`certCache
      ensures Valid()
      ensures r == PathInfoOf(backend, file, commit, mainBranch)
      ensures old(certCache).Keys <= certCache.Keys && old(sent) <= sent
    {
      var selector := if commit.Some? then commit.value else "h:" + mainBranch;
      var revs := ResolveSelector(selector);
      if revs.Err? {
        return Err(revs.error);
      }
      if |revs.value| == 0 {
        return Ok(None);
      }
      var rev0 := revs.value[0];
      var out := Exec(["get_manifest_of", rev0], []);
      if out.Err? {
        return Err(out.error);
      }
      var stanzas := ParseBasicIO(out.value);
      var k := 0;
      while k < |stanzas|
        invariant k <= |stanzas| && Valid()
        invariant old(certCache).Keys <= certCache.Keys && old(sent) <= sent
        invariant PathInfoFrom(backend, stanzas[k..], file, rev0) == PathInfoFrom(backend, stanzas, file, rev0)
      {
        var st := stanzas[k];
        assert stanzas[k..][1..] == stanzas[k + 1..];
        k := k + 1;
        if FirstKey(st) == "format_version" || FirstPath(st) != file {
          continue;
        }
        var entry := Describe(st, Basename(file), rev0);
        if entry.Err? {
          return Err(entry.error);
        }
        return Ok(Some(entry.value));
      }
      return Ok(None);
    }

    /** isCommitLarge. `fallback` is the selector the source derives from
        the main branch when no commit is given. */
    method IsCommitLarge(commit: string, fallback: string) returns (r: Result<bool>)
      modifies this`sent
      ensures r == IsCommitLargeOf(backend, commit, fallback)
      ensures old(sent) <= sent
    {
      var selector := if PhpEmpty(commit) then fallback else commit;
      var revs := ResolveSelector(selector);
      if revs.Err? {
        return Err(revs.error);
      }
      if |revs.value| == 0 {
        return Ok(false);
      }
      var out := Exec(["get_revision", revs.value[0]], []);
      if out.Err? {
        return Err(out.error);
      }
      var stanzas := ParseBasicIO(out.value);
      var count := CountNewAndPatched(stanzas);
      return Ok(count > 100);
    }

    /** getAnonymousAccessUrl, with the main branch and the configured remote
        URL (filled in with the project's short name) given. */
    method AnonymousAccessUrl(mainBranch: string, commit: string, remoteUrl: string) returns (r: Result<string>)
      requires Valid()
      modifies this`sent, this`certCache
      ensures Valid()
      ensures r == AnonymousAccessUrlOf(backend, mainBranch, commit, remoteUrl)
      ensures old(certCache).Keys <= certCache.Keys && old(sent) <= sent
    {
      var branch := mainBranch;
      if !PhpEmpty(commit) {
        var revs := ResolveSelector(commit);
        if revs.Err? {
          return Err(revs.error);
        }
        if |revs.value| > 0 {
          var certs := GetCerts(revs.value[0]);
          if certs.Err? {
            return Err(certs.error);
          }
          var branches := Lookup(certs.value, "branch");
          branch := if |branches| == 0 then "*" else branches[0];
        }
      }
      if PhpEmpty(remoteUrl) {
        return Ok("");
      }
      return Ok(remoteUrl + "?" + branch);
    }

    /** getAuthAccessUrl. */
    method AuthAccessUrlFor(user: string, mainBranch: string, commit: string, remoteUrl: string) returns (r: Result<string>)
      requires Valid()
      modifies this`sent, this`certCache
      ensures Valid()
      ensures r.Ok? <==> AnonymousAccessUrlOf(backend, mainBranch, commit, remoteUrl).Ok?
      ensures r.Ok? ==> r.value == AuthAccessUrl(AnonymousAccessUrlOf(backend, mainBranch, commit, remoteUrl).value, user)
      ensures old(certCache).Keys <= certCache.Keys && old(sent) <= sent
    {
      r := AnonymousAccessUrl(mainBranch, commit, remoteUrl);
      if r.Ok? {
        r := Ok(AuthAccessUrl(r.value, user));
      }
    }

    /** The toposort at the head of the loop of getChangeLog, sent only
        when the horizon holds more than one revision. */
    method OrderHorizon(horizont: seq<string>) returns (r: Result<seq<string>>)
      modifies this`sent
      ensures r == Ordered(backend, horizont)
      ensures |horizont| > 1 ==> sent == old(sent) + [(ListUnion(["toposort"], horizont), [])]
      ensures |horizont| <= 1 ==> sent == old(sent)
    {
      if |horizont| > 1 {
        var out := Exec(ListUnion(["toposort"], horizont), []);
        if out.Err? {
          return Err(out.error);
        }
        return Ok(SplitLines(out.value));
      }
      return Ok(horizont);
    }

    /** The rest of one iteration of the loop of getChangeLog, on the
        ordered horizon `h`: take its first revision and ask for its certs
        and its parents. The variables of the loop are then updated as
        Advance says (updating them before asking for the parents, as the
        loop does, gives the same result: a failure ends the whole
        operation). */
    method VisitFirst(w: Walk, h: seq<string>) returns (r: Result<Walk>)
      requires Valid()
      modifies this`sent, this`certCache
      ensures Valid()
      ensures r == Visit(backend, w, h)
      ensures old(certCache).Keys <= certCache.Keys && old(sent) <= sent
    {
      var rev := if h == [] then "" else h[0];
      var rest := if h == [] then [] else h[1..];
      var certs := GetCerts(rev);
      if certs.Err? {
        return Err(certs.error);
      }
      var parents := Exec(["parents", rev], []);
      if parents.Err? {
        return Err(parents.error);
      }
      return Ok(Advance(w, rest, rev, certs.value, SplitLines(parents.value)));
    }

    /** One iteration of the loop of getChangeLog, stated by what it does
        to the rest of the loop: the loop from `w` with `fuel` iterations
        left fails as the iteration does, or goes on from its result with
        one iteration less. */
    method ChangeLogStep(w: Walk, ghost fuel: nat) returns (r: Result<Walk>)
      requires Valid()
      requires w.horizont != [] && w.n > 0 && fuel > 0
      modifies this`sent, this`certCache
      ensures Valid()
      ensures r.Err? ==> Run(backend, w, fuel) == Err(r.error)
      ensures r.Ok? ==> Run(backend, w, fuel) == Run(backend, r.value, fuel - 1)
      ensures old(certCache).Keys <= certCache.Keys && old(sent) <= sent
    {
      var h := OrderHorizon(w.horizont);
      if h.Err? {
        r := Err(h.error);
      } else {
        r := VisitFirst(w, h.value);
      }
      RunStepOf(backend, w, fuel, r);
    }

    /** getChangeLog, for at most `fuel` iterations of its loop. */
    method GetChangeLog(commit: string, n: int, fuel: nat) returns (r: Result<seq<LogEntry>>)
      requires Valid()
      modifies this`sent, this`certCache
      ensures Valid()
      ensures r == ChangeLogOf(backend, commit, n, fuel)
      ensures old(certCache).Keys <= certCache.Keys && old(sent) <= sent
    {
      var revs := ResolveSelector(commit);
      if revs.Err? {
        return Err(revs.error);
      }
      ghost var target := Run(backend, Walk(revs.value, [], [], n, []), fuel);
      var w := Walk(revs.value, [], [], n, []);
      var f := fuel;
      while w.horizont != [] && w.n > 0
        invariant Valid()
        invariant old(certCache).Keys <= certCache.Keys && old(sent) <= sent
        invariant Run(backend, w, f) == target
        decreases f
      {
        if f == 0 {
          return Err(FuelExhausted);
        }
        var s := ChangeLogStep(w, f);
        if s.Err? {
          return Err(s.error);
        }
        w := s.value;
        f := f - 1;
      }
      return Ok(w.logs);
    }
  }
}
