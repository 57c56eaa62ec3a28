/** The parsing and formatting half of `handle_github_url` in
    ctxflow/utils.py. The repository's default branch, which the source
    fetches from the GitHub API, is a parameter. */
module GithubUrl {
  import opened Wrappers
  import opened Text

  const GithubPrefix: string := "github://"

  /** The `ValueError` message of a failed two-name unpacking `a, b = xs`. */
  function UnpackTwoError(got: nat): string
  {
    if got < 2 then "not enough values to unpack (expected 2, got " + Decimal(got) + ")"
    else "too many values to unpack (expected 2)"
  }

  /** `f"{gitub_prefix}{org}:{repo}@{default_branch}/{arg_str}".rstrip("/")`. */
  function GithubUri(org: string, repo: string, args: seq<string>, defaultBranch: string): string
  {
    TrimEnd(GithubPrefix + org + ":" + repo + "@" + defaultBranch + "/" + Join(args, "/"), {'/'})
  }

  /** `handle_github_url(url)` as written. */
  function HandleGithubUrl(url: string, defaultBranch: string): (r: Result<string>)
    ensures Contains(url, GithubPrefix) && Contains(url, "@") ==> r == Ok(url)
    ensures !Contains(url, GithubPrefix) && !Contains(Lower(url), "github.com") ==>
      r == Err("Invalid GitHub URL: " + url)
  {
    if Contains(url, GithubPrefix) && !Contains(url, "@") then
      var halves := Split(url, GithubPrefix);
      if |halves| != 2 then Err(UnpackTwoError(|halves|))
      else
        var orgRepo := Split(halves[1], ":");
        if |orgRepo| != 2 then Err(UnpackTwoError(|orgRepo|))
        else
          var repoArgs := Split(orgRepo[1], "/");
          Ok(GithubUri(orgRepo[0], repoArgs[0], repoArgs[1..], defaultBranch))
    else if Contains(url, GithubPrefix) && Contains(url, "@") then
      Ok(url)
    else if Contains(Lower(url), "github.com") then
      // `_, org, repo, *args = url.split("/")`
      var parts := Split(url, "/");
      if |parts| < 3 then Err("not enough values to unpack (expected at least 3, got " + Decimal(|parts|) + ")")
      else Ok(GithubUri(parts[1], parts[2], parts[3..], defaultBranch))
    else
      Err("Invalid GitHub URL: " + url)
  }

  /** A `github://` URI keeps its prefix and everything up to its `@`: the
      trailing-slash strip stops at the `@`. */
  lemma GithubUriShape(org: string, repo: string, args: seq<string>, defaultBranch: string)
    ensures Contains(GithubUri(org, repo, args, defaultBranch), GithubPrefix)
    ensures Contains(GithubUri(org, repo, args, defaultBranch), "@")
  {
    var s := GithubPrefix + org + ":" + repo + "@" + defaultBranch + "/" + Join(args, "/");
    var q := |GithubPrefix + org + ":" + repo|;
    assert s[q] == '@';
    var r := TrimEnd(s, {'/'});
    assert q < |r|;
    assert r[..|GithubPrefix|] == s[..|GithubPrefix|] == GithubPrefix;
    assert OccursAt(r, GithubPrefix, 0);
    assert r[q..q + 1] == "@";
    assert OccursAt(r, "@", q);
  }

  /** Every URI the function produces is a fixed point: handing it back
      returns it unchanged, whatever the default branch. */
  lemma ConvertedIsFixedPoint(url: string, defaultBranch: string, otherBranch: string)
    requires HandleGithubUrl(url, defaultBranch).Ok?
    ensures HandleGithubUrl(HandleGithubUrl(url, defaultBranch).value, otherBranch)
         == HandleGithubUrl(url, defaultBranch)
  {
    if Contains(url, GithubPrefix) && !Contains(url, "@") {
      var halves := Split(url, GithubPrefix);
      var orgRepo := Split(halves[1], ":");
      var repoArgs := Split(orgRepo[1], "/");
      GithubUriShape(orgRepo[0], repoArgs[0], repoArgs[1..], defaultBranch);
    } else if !Contains(url, GithubPrefix) {
      var parts := Split(url, "/");
      GithubUriShape(parts[1], parts[2], parts[3..], defaultBranch);
    }
  }

  /** A name that no separator of the short form occurs in. */
  predicate PlainName(w: string)
  {
    ':' !in w && '@' !in w && '/' !in w
  }

  /** The short form `github://org:repo/arg/...` without a branch. */
  function ShortUrl(org: string, repo: string, args: seq<string>): string
  {
    GithubPrefix + org + ":" + Join([repo] + args, "/")
  }

  /** The short form converts to the URI naming the default branch, with
      the path after it. */
  lemma ShortUrlConverts(org: string, repo: string, args: seq<string>, defaultBranch: string)
    requires PlainName(org) && PlainName(repo) && repo != ""
    requires forall i :: 0 <= i < |args| ==> PlainName(args[i])
    ensures HandleGithubUrl(ShortUrl(org, repo, args), defaultBranch) == Ok(GithubUri(org, repo, args, defaultBranch))
  {
    var ws := [repo] + args;
    var j := Join(ws, "/");
    ShortUrlHalves(org, repo, args);
    assert Join([org, j], ":") == org + ":" + j by { assert [org, j][1..] == [j]; }
    SplitJoin([org, j], ':');
    SplitJoin(ws, '/');
    assert ws[1..] == args;
  }

  /** The short form takes the first branch and cuts at its prefix into
      nothing and `org:repo/…`; no piece holds a colon or an `@`. */
  lemma ShortUrlHalves(org: string, repo: string, args: seq<string>)
    requires PlainName(org) && PlainName(repo) && repo != ""
    requires forall i :: 0 <= i < |args| ==> PlainName(args[i])
    ensures var ws := [repo] + args;
      var url := ShortUrl(org, repo, args);
      && Contains(url, GithubPrefix) && !Contains(url, "@")
      && Split(url, GithubPrefix) == ["", org + ":" + Join(ws, "/")]
      && ':' !in Join(ws, "/") && (forall i :: 0 <= i < |ws| ==> '/' !in ws[i])
  {
    var ws := [repo] + args;
    var j := Join(ws, "/");
    var rest := org + ":" + j;
    var url := ShortUrl(org, repo, args);
    assert url == GithubPrefix + rest;
    assert forall i :: 0 <= i < |ws| ==> PlainName(ws[i]) by {
      forall i | 0 <= i < |ws| ensures PlainName(ws[i]) {
        if i > 0 { assert ws[i] == args[i - 1]; }
      }
    }
    JoinKeepsOut(ws, "/", ':');
    JoinKeepsOut(ws, "/", '@');
    assert url[..|GithubPrefix|] == GithubPrefix;
    assert OccursAt(url, GithubPrefix, 0);
    assert '@' !in url;
    NotContainedChar(url, '@');
    JoinHead(ws, "/");
    RestHasNoPrefix(org, j, repo);
    SplitNotContained(rest, GithubPrefix);
    assert url[|GithubPrefix|..] == rest;
  }

  /** `org:rest` holds no "github://" when `rest` starts with a plain,
      non-empty name and neither holds another colon. */
  lemma RestHasNoPrefix(org: string, j: string, repo: string)
    requires ':' !in org && ':' !in j && repo != "" && '/' !in repo
    requires |repo| <= |j| && j[..|repo|] == repo
    ensures !Contains(org + ":" + j, GithubPrefix)
  {
    var rest := org + ":" + j;
    forall k | 0 <= k <= |rest| - |GithubPrefix| ensures !OccursAt(rest, GithubPrefix, k) {
      var w := rest[k..k + |GithubPrefix|];
      assert w[6] == rest[k + 6] && w[7] == rest[k + 7];
      if k + 6 < |org| {
        assert rest[k + 6] == org[k + 6];
      } else if k + 6 > |org| {
        assert rest[k + 6] == j[k + 6 - |org| - 1];
      } else {
        assert rest[k + 7] == j[0] == repo[0];
      }
    }
  }

  /** A character-free string does not contain that one-character string. */
  lemma NotContainedChar(s: string, c: char)
    requires c !in s
    ensures !Contains(s, [c])
  {
    forall k | 0 <= k < |s| ensures !OccursAt(s, [c], k) {
      assert s[k..k + 1][0] == s[k];
    }
  }

  /** The scheme-less `github.com/org/repo` converts to the URI of that
      repository at the default branch, as written and with the fix. */
  lemma SchemelessUrlConverts(org: string, repo: string, defaultBranch: string)
    requires PlainName(org) && PlainName(repo)
    ensures HandleGithubUrl("github.com/" + org + "/" + repo, defaultBranch) == Ok(GithubUri(org, repo, [], defaultBranch))
    ensures HandleGithubUrlFixed("github.com/" + org + "/" + repo, defaultBranch) == Ok(GithubUri(org, repo, [], defaultBranch))
  {
    var ws := ["github.com", org, repo];
    SchemelessPieces(org, repo);
    SchemelessHost(org, repo);
    HostPieces();
    assert HostIndex(ws) == 0;
    assert ws[3..] == [];
  }

  /** The scheme-less URL takes the third branch and splits into its three
      names. */
  lemma SchemelessPieces(org: string, repo: string)
    requires PlainName(org) && PlainName(repo)
    ensures Split("github.com/" + org + "/" + repo, "/") == ["github.com", org, repo]
    ensures !Contains("github.com/" + org + "/" + repo, GithubPrefix)
  {
    var ws := ["github.com", org, repo];
    var url := "github.com/" + org + "/" + repo;
    assert Join(ws, "/") == url by {
      assert ws[1..][1..] == [repo];
      assert Join(ws[1..], "/") == org + "/" + repo;
    }
    assert forall i :: 0 <= i < |ws| ==> '/' !in ws[i];
    SplitJoin(ws, '/');
    assert ':' !in url;
    NoPrefixWithoutColon(url);
  }

  lemma SchemelessHost(org: string, repo: string)
    ensures Contains(Lower("github.com/" + org + "/" + repo), "github.com")
  {
    var l := Lower("github.com/" + org + "/" + repo);
    assert l[..10] == "github.com";
    assert OccursAt(l, "github.com", 0);
  }

  lemma NoPrefixWithoutColon(s: string)
    requires ':' !in s
    ensures !Contains(s, GithubPrefix)
  {
    forall k | 0 <= k <= |s| - |GithubPrefix| ensures !OccursAt(s, GithubPrefix, k) {
      assert s[k..k + |GithubPrefix|][6] == s[k + 6];
    }
  }

  /** The URL of a repository's GitHub page, `https://github.com/org/repo`. */
  function HttpsUrl(org: string, repo: string): string
  {
    "https://github.com/" + org + "/" + repo
  }

  /** The page URL is its slash-free segments joined by "/". */
  lemma HttpsUrlJoin(org: string, repo: string)
    ensures Join(["https:", "", "github.com", org, repo], "/") == HttpsUrl(org, repo)
  {
    var ws := ["https:", "", "github.com", org, repo];
    var tail := org + "/" + repo;
    assert Join(ws[3..], "/") == tail by { assert ws[3..][1..] == [repo]; }
    var host := "github.com" + "/" + tail;
    assert Join(ws[2..], "/") == host by { assert ws[2..][1..] == ws[3..]; }
    assert Join(ws, "/") == "https:" + "/" + ("" + "/" + host) by { assert ws[1..][1..] == ws[2..]; }
    HttpsPrefixPieces(tail);
  }

  lemma HttpsPrefixPieces(tail: string)
    ensures "https:" + "/" + ("" + "/" + ("github.com" + "/" + tail)) == "https://github.com/" + tail
  {
    var l := "https:" + "/" + "" + "/" + "github.com" + "/";
    assert |l| == 19;
    forall i | 0 <= i < 19 ensures l[i] == "https://github.com/"[i] {
    }
    assert "https:" + "/" + ("" + "/" + ("github.com" + "/" + tail)) == l + tail;
  }

  lemma HttpsUrlParts(org: string, repo: string)
    requires '/' !in org && '/' !in repo
    ensures Split(HttpsUrl(org, repo), "/") == ["https:", "", "github.com", org, repo]
  {
    var ws := ["https:", "", "github.com", org, repo];
    assert forall i :: 0 <= i < |ws| ==> '/' !in ws[i];
    SplitJoin(ws, '/');
    HttpsUrlJoin(org, repo);
  }

  lemma HttpsUrlShape(org: string, repo: string)
    requires ':' !in org && ':' !in repo
    ensures !Contains(HttpsUrl(org, repo), GithubPrefix)
    ensures Contains(Lower(HttpsUrl(org, repo)), "github.com")
  {
    NoGithubPrefix(org, repo);
    LowerHasHost(org, repo);
  }

  lemma NoGithubPrefix(org: string, repo: string)
    requires ':' !in org && ':' !in repo
    ensures !Contains(HttpsUrl(org, repo), GithubPrefix)
  {
    var u := HttpsUrl(org, repo);
    if Contains(u, GithubPrefix) {
      var k :| OccursAt(u, GithubPrefix, k);
      assert u[k + 6] == GithubPrefix[6] == ':';
      OnlyColon(org, repo, k + 6);
      assert false;
    }
  }

  lemma LowerHasHost(org: string, repo: string)
    ensures Contains(Lower(HttpsUrl(org, repo)), "github.com")
  {
    var l := Lower(HttpsUrl(org, repo));
    assert l[8..18] == "github.com";
    assert OccursAt(l, "github.com", 8);
  }

  lemma OnlyColon(org: string, repo: string, j: int)
    requires ':' !in org && ':' !in repo
    requires 0 <= j < |HttpsUrl(org, repo)| && HttpsUrl(org, repo)[j] == ':'
    ensures j == 5
  {
  }

  /** As written, the usual page URL `https://github.com/org/repo` is cut at
      every slash and unpacked from the front, so the organisation comes out
      empty, the repository as "github.com", and org/repo end up as the path. */
  lemma HttpsUrlMisparsed(org: string, repo: string, defaultBranch: string)
    requires ':' !in org && ':' !in repo && '/' !in org && '/' !in repo
    ensures HandleGithubUrl(HttpsUrl(org, repo), defaultBranch)
         == Ok(GithubUri("", "github.com", [org, repo], defaultBranch))
  {
    HttpsUrlShape(org, repo);
    HttpsUrlParts(org, repo);
    var parts := ["https:", "", "github.com", org, repo];
    assert parts[3..] == [org, repo];
  }

  /** The index of the first piece that mentions "github.com" (case-insensitively). */
  function HostIndex(parts: seq<string>): (k: nat)
    ensures k <= |parts|
    ensures forall j :: 0 <= j < k ==> !Contains(Lower(parts[j]), "github.com")
    ensures k < |parts| ==> Contains(Lower(parts[k]), "github.com")
  {
    if parts == [] then 0
    else if Contains(Lower(parts[0]), "github.com") then 0
    else 1 + HostIndex(parts[1..])
  }

  /** `handle_github_url(url)` as evidently intended: the organisation and
      the repository are the two path segments after the host, with or
      without a scheme in front. */
  function HandleGithubUrlFixed(url: string, defaultBranch: string): (r: Result<string>)
    ensures Contains(url, GithubPrefix) && Contains(url, "@") ==> r == Ok(url)
    ensures !Contains(url, GithubPrefix) && !Contains(Lower(url), "github.com") ==>
      r == Err("Invalid GitHub URL: " + url)
  {
    if Contains(url, GithubPrefix) then HandleGithubUrl(url, defaultBranch)
    else if Contains(Lower(url), "github.com") then
      var parts := Split(url, "/");
      var k := HostIndex(parts);
      if k + 3 > |parts| then Err("not enough values to unpack")
      else Ok(GithubUri(parts[k + 1], parts[k + 2], parts[k + 3..], defaultBranch))
    else
      Err("Invalid GitHub URL: " + url)
  }

  /** With the fix, the page URL names the right organisation and repository. */
  lemma HttpsUrlParsedFixed(org: string, repo: string, defaultBranch: string)
    requires ':' !in org && ':' !in repo && '/' !in org && '/' !in repo
    ensures HandleGithubUrlFixed(HttpsUrl(org, repo), defaultBranch)
         == Ok(GithubUri(org, repo, [], defaultBranch))
  {
    HttpsUrlShape(org, repo);
    HttpsUrlParts(org, repo);
    var parts := ["https:", "", "github.com", org, repo];
    PageHostIndex(org, repo);
    assert parts[5..] == [];
  }

  /** In the pieces of a page URL the host is the third. */
  lemma PageHostIndex(org: string, repo: string)
    ensures HostIndex(["https:", "", "github.com", org, repo]) == 2
  {
    var parts := ["https:", "", "github.com", org, repo];
    HostPieces();
    assert HostIndex(parts[2..]) == 0;
    assert HostIndex(parts[1..]) == 1;
  }

  lemma HostPieces()
    ensures Contains(Lower("github.com"), "github.com")
    ensures !Contains(Lower("https:"), "github.com") && !Contains(Lower(""), "github.com")
  {
    assert Lower("github.com") == "github.com";
    assert OccursAt(Lower("github.com"), "github.com", 0);
  }
}
