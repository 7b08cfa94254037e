/**
 * IDF_Form_Admin_ProjectCreate: the validation a forge administrator's
 * "create project" form applies to its fields. The form holds its cleaned
 * values in a dictionary (`cleaned_data`) that the per-field cleaners and
 * the whole-form cleaner read and overwrite.
 *
 *  - the short name is lower-cased and must be made of `-`, ASCII letters
 *    and digits, must neither start nor end with `-`, and must not be the
 *    short name of an existing project;
 *  - the remote Subversion URL is trimmed and, when not empty, must start
 *    with `http://` or `https://`;
 *  - a project whose repository is not Subversion keeps no Subversion
 *    settings: the three svn fields are blanked.
 *
 * The existing projects' short names are a parameter (the source asks the
 * database).
 */
module ProjectCreateForm {
  import opened PhpRuntime

  const IllegalCharacters := "This shortname contains illegal characters, please use only letters, digits and dash (-)."
  const LeadingDash := "The shortname cannot start with the dash (-) character."
  const TrailingDash := "The shortname cannot end with the dash (-) character."
  const ShortnameTaken := "This shortname is already used. Please select another one."
  const RemoteOnly := "Only a remote repository available throught http or https are allowed. For example \"http://somewhere.com/svn/trunk\"."

  /** The fields `clean` blanks for a project that does not use Subversion. */
  const SvnFields: seq<string> := ["svn_remote_url", "svn_username", "svn_password"]

  // ---------------------------------------------------------------------
  // clean_shortname

  /** mb_strtolower on one character, over ASCII. */
  function LowerChar(c: char): char {
    if 'A' <= c <= 'Z' then (c as int + 32) as char else c
  }

  /** mb_strtolower, over ASCII. */
  function AsciiLower(s: string): (r: string)
    ensures |r| == |s|
    ensures forall i :: 0 <= i < |s| ==> r[i] == LowerChar(s[i])
  {
    if s == [] then [] else [LowerChar(s[0])] + AsciiLower(s[1..])
  }

  /** `[-A-Za-z0-9]`. */
  predicate ShortnameChar(c: char) {
    c == '-' || 'A' <= c <= 'Z' || 'a' <= c <= 'z' || '0' <= c <= '9'
  }

  /** No match of `/[^\-A-Za-z0-9]/`. */
  predicate LegalCharacters(s: string) {
    forall i :: 0 <= i < |s| ==> ShortnameChar(s[i])
  }

  /** clean_shortname: the checks in the order the source makes them; the
      cleaned value is the lower-cased name. */
  function CleanShortname(shortname: string, existing: set<string>): Result<string> {
    var s := AsciiLower(shortname);
    if !LegalCharacters(s) then Err(FormInvalid(IllegalCharacters))
    else if |s| > 0 && s[0] == '-' then Err(FormInvalid(LeadingDash))
    else if |s| > 0 && s[|s| - 1] == '-' then Err(FormInvalid(TrailingDash))
    else if s in existing then Err(FormInvalid(ShortnameTaken))
    else Ok(s)
  }

  /** A short name the form stores: lower case, dashes, ASCII letters and
      digits, no dash at either end. */
  predicate ValidShortname(s: string) {
    && (forall i :: 0 <= i < |s| ==> s[i] == '-' || 'a' <= s[i] <= 'z' || '0' <= s[i] <= '9')
    && (|s| > 0 ==> s[0] != '-' && s[|s| - 1] != '-')
  }

  /** Lower-casing leaves a lower-cased string as it is. */
  lemma AsciiLowerIdempotent(s: string)
    ensures AsciiLower(AsciiLower(s)) == AsciiLower(s)
  {
    var r := AsciiLower(s);
    assert forall i :: 0 <= i < |r| ==> LowerChar(r[i]) == r[i];
  }

  /** The name is accepted exactly when its lower-cased form has only legal
      characters, no dash at either end and is not taken; the cleaned value
      is then that lower-cased form, and it is a valid short name. */
  lemma CleanShortnameAccepts(shortname: string, existing: set<string>)
    ensures var r := CleanShortname(shortname, existing);
      var s := AsciiLower(shortname);
      && (r.Ok? <==>
            && LegalCharacters(s)
            && (|s| > 0 ==> s[0] != '-' && s[|s| - 1] != '-')
            && s !in existing)
      && (r.Ok? ==> r.value == s && ValidShortname(r.value) && r.value !in existing)
  {
    var s := AsciiLower(shortname);
    if CleanShortname(shortname, existing).Ok? {
      forall i | 0 <= i < |s|
        ensures s[i] == '-' || 'a' <= s[i] <= 'z' || '0' <= s[i] <= '9'
      {
        assert ShortnameChar(s[i]) && s[i] == LowerChar(shortname[i]);
      }
    }
  }

  /** Each refusal, with the message of the first check that fails. */
  lemma CleanShortnameRefusals(shortname: string, existing: set<string>)
    ensures var r := CleanShortname(shortname, existing);
      var s := AsciiLower(shortname);
      && ((exists i :: 0 <= i < |s| && !ShortnameChar(s[i])) ==> r == Err(FormInvalid(IllegalCharacters)))
      && (LegalCharacters(s) && |s| > 0 && s[0] == '-' ==> r == Err(FormInvalid(LeadingDash)))
      && (LegalCharacters(s) && |s| > 0 && s[0] != '-' && s[|s| - 1] == '-' ==> r == Err(FormInvalid(TrailingDash)))
      && (ValidShortname(s) && s in existing ==> r == Err(FormInvalid(ShortnameTaken)))
  {
    var s := AsciiLower(shortname);
    if ValidShortname(s) {
      assert LegalCharacters(s) by {
        assert forall i :: 0 <= i < |s| ==> ShortnameChar(s[i]);
      }
    }
  }

  /** Letter case does not matter: names that differ only in the case of
      their ASCII letters are cleaned alike. */
  lemma CleanShortnameIgnoresCase(x: string, y: string, existing: set<string>)
    requires AsciiLower(x) == AsciiLower(y)
    ensures CleanShortname(x, existing) == CleanShortname(y, existing)
  {
  }

  /** A cleaned short name passes the checks again, taken names aside: it is
      its own lower-cased form. */
  lemma CleanShortnameStable(shortname: string, existing: set<string>, others: set<string>)
    requires CleanShortname(shortname, existing).Ok?
    requires CleanShortname(shortname, existing).value !in others
    ensures CleanShortname(CleanShortname(shortname, existing).value, others) == CleanShortname(shortname, existing)
  {
    AsciiLowerIdempotent(shortname);
  }

  // ---------------------------------------------------------------------
  // clean_svn_remote_url

  /** The value clean_svn_remote_url writes back before checking: the
      field as given unless it is absent or PHP-empty ("" or "0"), and ""
      otherwise. */
  function SvnRemoteUrlField(data: map<string, string>): string {
    if "svn_remote_url" in data && !PhpEmpty(data["svn_remote_url"]) then data["svn_remote_url"] else ""
  }

  /** `#^(http|https)://#`. */
  predicate RemoteScheme(url: string) {
    StartsWith(url, "http://") || StartsWith(url, "https://")
  }

  /** The checks of clean_svn_remote_url on the written-back value. */
  function CleanSvnRemoteUrl(value: string): Result<string> {
    var url := Trim(value);
    if |url| == 0 then Ok(url)
    else if !RemoteScheme(url) then Err(FormInvalid(RemoteOnly))
    else Ok(url)
  }

  /** An absent, empty, "0" or blank URL cleans to ""; any other URL is
      accepted exactly when it starts with `http://` or `https://` once
      trimmed, and the cleaned value is the trimmed URL. */
  lemma SvnRemoteUrlAccepts(data: map<string, string>)
    ensures var r := CleanSvnRemoteUrl(SvnRemoteUrlField(data));
      var url := Trim(SvnRemoteUrlField(data));
      && ("svn_remote_url" !in data || PhpEmpty(data["svn_remote_url"]) ==> r == Ok(""))
      && (r.Ok? <==> url == "" || RemoteScheme(url))
      && (r.Ok? ==> r.value == url)
      && (r.Err? ==> r.error == FormInvalid(RemoteOnly))
  {
    if "svn_remote_url" !in data || PhpEmpty(data["svn_remote_url"]) {
      assert TrimStart("") == "";
    }
  }

  /** A cleaned URL is trimmed, and cleans to itself. */
  lemma CleanSvnRemoteUrlStable(value: string)
    requires CleanSvnRemoteUrl(value).Ok?
    ensures var url := CleanSvnRemoteUrl(value).value;
      && (|url| > 0 ==> !IsTrimmable(url[0]) && !IsTrimmable(url[|url| - 1]))
      && CleanSvnRemoteUrl(url) == Ok(url)
  {
    var url := Trim(value);
    TrimTrimmed(value);
    assert Trim(url) == url;
    assert CleanSvnRemoteUrl(url) == Ok(url);
  }

  // ---------------------------------------------------------------------
  // clean

  /** `data` with each of `keys` set to "". */
  function Blanked(data: map<string, string>, keys: seq<string>): map<string, string> {
    if keys == [] then data else Blanked(data, keys[..|keys| - 1])[keys[|keys| - 1] := ""]
  }

  /** The form's data after clean: unchanged for a Subversion project;
      otherwise the three svn fields set to "". An absent `scm` is not
      "svn". */
  function Cleared(data: map<string, string>): map<string, string> {
    if "scm" in data && data["scm"] == "svn" then data else Blanked(data, SvnFields)
  }

  /** Blanking sets the given keys to "" and leaves every other entry as it
      was. */
  lemma {:induction false} BlankedFields(data: map<string, string>, keys: seq<string>)
    ensures var d := Blanked(data, keys);
      && d.Keys == data.Keys + (set k | k in keys)
      && (forall k :: k in keys ==> k in d && d[k] == "")
      && (forall k :: k in data && k !in keys ==> k in d && d[k] == data[k])
  {
    if keys != [] {
      var init := keys[..|keys| - 1];
      BlankedFields(data, init);
      assert keys == init + [keys[|keys| - 1]];
      assert (set k | k in keys) == (set k | k in init) + {keys[|keys| - 1]};
    }
  }

  /** clean blanks exactly the svn fields of a project that does not use
      Subversion, and changes nothing else. */
  lemma ClearedFields(data: map<string, string>)
    ensures var d := Cleared(data);
      && ("scm" in data && data["scm"] == "svn" ==> d == data)
      && (!("scm" in data && data["scm"] == "svn") ==>
            && (forall k :: k in SvnFields ==> k in d && d[k] == "")
            && d.Keys == data.Keys + {"svn_remote_url", "svn_username", "svn_password"})
      && (forall k :: k in data && k !in SvnFields ==> k in d && d[k] == data[k])
  {
    if !("scm" in data && data["scm"] == "svn") {
      var d := Blanked(data, SvnFields);
      BlankedFields(data, SvnFields);
      assert (set k | k in SvnFields) == {"svn_remote_url", "svn_username", "svn_password"};
      assert Cleared(data) == d;
    }
  }

  /** Cleaning twice is cleaning once. */
  lemma ClearedIdempotent(data: map<string, string>)
    ensures Cleared(Cleared(data)) == Cleared(data)
  {
    var d := Cleared(data);
    if !("scm" in data && data["scm"] == "svn") {
      ClearedFields(data);
      ClearedFields(d);
      assert "scm" !in SvnFields;
      assert Cleared(d) == d;
    }
  }

  /** The form, with the dictionary of cleaned values its cleaners update. */
  class ProjectCreate {
    var cleanedData: map<string, string>

    constructor(data: map<string, string>)
      ensures cleanedData == data
    {
      cleanedData := data;
    }

    /** clean_shortname: reads the short name field (absent reads as ""). */
    method CleanShortnameField(existing: set<string>) returns (r: Result<string>)
      ensures r == CleanShortname(if "shortname" in cleanedData then cleanedData["shortname"] else "", existing)
    {
      var shortname := if "shortname" in cleanedData then cleanedData["shortname"] else "";
      r := CleanShortname(shortname, existing);
    }

    /** clean_svn_remote_url: writes the normalised field back, then checks
        it. */
    method CleanSvnRemoteUrlField() returns (r: Result<string>)
      modifies this
      ensures cleanedData == old(cleanedData)["svn_remote_url" := SvnRemoteUrlField(old(cleanedData))]
      ensures r == CleanSvnRemoteUrl(SvnRemoteUrlField(old(cleanedData)))
    {
      cleanedData := cleanedData["svn_remote_url" := SvnRemoteUrlField(cleanedData)];
      r := CleanSvnRemoteUrl(cleanedData["svn_remote_url"]);
    }

    /** clean: blanks the svn fields one by one unless the project uses
        Subversion, and answers the cleaned data. */
    method Clean() returns (r: map<string, string>)
      modifies this
      ensures cleanedData == Cleared(old(cleanedData))
      ensures r == cleanedData
    {
      if !("scm" in cleanedData && cleanedData["scm"] == "svn") {
        ghost var before := cleanedData;
        for i := 0 to |SvnFields|
          invariant cleanedData == Blanked(before, SvnFields[..i])
        {
          assert SvnFields[..i + 1][..i] == SvnFields[..i];
          cleanedData := cleanedData[SvnFields[i] := ""];
        }
        assert SvnFields[..|SvnFields|] == SvnFields;
      }
      r := cleanedData;
    }
  }
}
