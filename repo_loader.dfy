/** The GitHub repository connector of the collector: a loader object that
    checks a repository URL, looks up the repository's branches through the
    GitHub API, settles on the branch to read and streams the repository's
    documents once it is ready.

    The GitHub API and the document stream are outside this module: each is
    a function parameter, and the requests the loader makes are returned in
    order. */
module GithubRepo {

  import opened Common
  import opened UrlPattern

  const GithubPrefix := "https://github.com/"
  const ApiPrefix := "https://api.github.com/repos/"
  const BranchesSuffix := "/branches"
  const NotReadyMessage := "RepoLoader is not in ready state!"

  // ---------------------------------------------------------------------
  // Repository URL

  /** The captures of `https\://github.com/(:author)/(:project)`. */
  datatype GithubMatch = GithubMatch(author: Option<string>, project: Option<string>)

  /** The repository URL pattern, matched against the whole URL: both
      segments are optional, the slash between them is not, and nothing may
      follow the project. */
  function MatchGithubUrl(url: string): (r: Option<GithubMatch>)
    ensures r.Some? ==> GithubPrefix <= url && IsCapture(r.value.author) && IsCapture(r.value.project)
  {
    var afterPrefix :- Strip(GithubPrefix, url);
    var (author, afterAuthor) := OptionalSegment(afterPrefix);
    var afterSlash :- Strip("/", afterAuthor);
    var (project, rest) := OptionalSegment(afterSlash);
    if rest == "" then Some(GithubMatch(author, project)) else None
  }

  /** `pattern.match(this.repo)`: an undefined repository matches nothing. */
  function MatchRepo(repo: Option<string>): Option<GithubMatch>
  {
    if repo.Some? then MatchGithubUrl(repo.value) else None
  }

  /** The repository URL the pattern reads the given captures from. */
  function GithubUrl(author: Option<string>, project: Option<string>): string
  {
    GithubPrefix + (TextOf(author) + ("/" + TextOf(project)))
  }

  /** What the pattern matches is a URL built from its captures. */
  lemma GithubMatchIsUrl(url: string)
    requires MatchGithubUrl(url).Some?
    ensures var m := MatchGithubUrl(url).value;
      IsCapture(m.author) && IsCapture(m.project) && url == GithubUrl(m.author, m.project)
  {
  }

  /** Every URL built from captures matches, giving those captures back. */
  lemma GithubUrlMatches(author: Option<string>, project: Option<string>)
    requires IsCapture(author) && IsCapture(project)
    ensures MatchGithubUrl(GithubUrl(author, project)) == Some(GithubMatch(author, project))
  {
    var afterPrefix := TextOf(author) + ("/" + TextOf(project));
    StripFront(GithubPrefix, afterPrefix);
    OptionalSegmentOf(author, "/" + TextOf(project));
    StripFront("/", TextOf(project));
    assert TextOf(project) == TextOf(project) + "";
    OptionalSegmentOf(project, "");
  }

  /** A URL with anything after the project, a trailing slash included, does
      not match. */
  lemma NothingAfterProject(author: Option<string>, project: Option<string>, extra: string)
    requires IsCapture(author) && IsCapture(project) && extra != [] && StopsCapture(extra)
    ensures MatchGithubUrl(GithubUrl(author, project) + extra).None?
  {
    var afterProject := TextOf(project) + extra;
    assert GithubUrl(author, project) + extra == GithubPrefix + (TextOf(author) + ("/" + afterProject));
    StripFront(GithubPrefix, TextOf(author) + ("/" + afterProject));
    OptionalSegmentOf(author, "/" + afterProject);
    StripFront("/", afterProject);
    OptionalSegmentOf(project, extra);
  }

  /** The branch list endpoint of a repository. */
  function BranchesApiUrl(author: string, project: string): string
  {
    ApiPrefix + author + "/" + project + BranchesSuffix
  }

  // ---------------------------------------------------------------------
  // Branches

  /** One entry of the branch list the GitHub API returns. */
  datatype BranchObject = BranchObject(name: string)

  /** `branchObjects.map((branch) => branch.name)`. */
  function BranchNames(objects: seq<BranchObject>): (names: seq<string>)
    ensures |names| == |objects|
    ensures forall i :: 0 <= i < |objects| ==> names[i] == objects[i].name
  {
    seq(|objects|, i requires 0 <= i < |objects| => objects[i].name)
  }

  /** The branch `#validBranch` settles on: the requested branch when it is
      set and listed, otherwise `main` when that is listed, otherwise `master`. */
  function ResolveBranch(requested: Option<string>, branches: seq<string>): (b: string)
    ensures b in branches || b == "master"
  {
    if Truthy(requested) && requested.value in branches then requested.value
    else if "main" in branches then "main"
    else "master"
  }

  /** The resolved branch is the listed requested branch, `main` or
      `master`; it is listed unless it is the `master` fallback; a listed
      requested branch always wins, and `main` wins over `master`. */
  lemma ResolvedBranchIsListedOrMaster(requested: Option<string>, branches: seq<string>)
    ensures var b := ResolveBranch(requested, branches);
      && (b in branches || (b == "master" && "main" !in branches))
      && ((Truthy(requested) && b == requested.value) || b == "main" || b == "master")
      && (Truthy(requested) && requested.value in branches ==> b == requested.value)
      && ("main" in branches && b == "master" ==> requested == Some("master"))
  {
  }

  /** Resolving again against the same branch list keeps the branch: a
      loader that is initialised twice does not move. */
  lemma ResolveBranchIdempotent(requested: Option<string>, branches: seq<string>)
    ensures var b := ResolveBranch(requested, branches);
      ResolveBranch(Some(b), branches) == b
  {
  }

  /** The three cases the rule is known by. */
  lemma ResolveBranchExamples()
    ensures ResolveBranch(None, ["develop", "master"]) == "master"
    ensures ResolveBranch(None, ["main", "dev"]) == "main"
    ensures ResolveBranch(Some("feature-x"), ["main"]) == "main"
  {
    assert "main" !in ["develop", "master"] by {
      assert "main" != "develop" && "main" != "master";
    }
    assert "feature-x" !in ["main"] by {
      assert "feature-x" != "main";
    }
  }

  // ---------------------------------------------------------------------
  // The loader

  /** The options the document loader is constructed with. */
  datatype GithubLoaderOptions = GithubLoaderOptions(
    branch: Option<string>,
    recursive: bool,
    maxConcurrency: nat,
    unknown: string)

  /** What the document loader is constructed with: the repository and the options. */
  datatype StreamRequest = StreamRequest(repo: Option<string>, options: GithubLoaderOptions)

  /** What iterating the document stream gives: the documents it yields, in
      order, then the error it throws, if it throws one (a branch that does
      not exist, an unreachable repository). */
  datatype DocStream<D> = DocStream(docs: seq<D>, error: Option<string>)

  class RepoLoader {
    var ready: bool
    var repo: Option<string>
    var branch: Option<string>
    var author: Option<string>
    var project: Option<string>
    var branches: seq<string>

    /** Once ready, the repository URL matched, `author` and `project` hold
        its captures and a branch is set. */
    predicate Valid()
      reads this
    {
      ready ==>
        && MatchRepo(repo).Some?
        && author == MatchRepo(repo).value.author
        && project == MatchRepo(repo).value.project
        && branch.Some?
    }

    /** `new RepoLoader({repo, branch})`. */
    constructor (repo: Option<string>, branch: Option<string>)
      ensures Valid()
      ensures !ready && this.repo == repo && this.branch == branch
      ensures author.None? && project.None? && branches == []
    {
      this.ready := false;
      this.repo := repo;
      this.branch := branch;
      this.author := None;
      this.project := None;
      this.branches := [];
    }

    /** `#validGithubUrl`: whether the repository URL matches; on a match
        `author` and `project` take its captures, otherwise they are left as
        they were. */
    method ValidGithubUrl() returns (ok: bool)
      requires Valid()
      modifies this`author, this`project
      ensures Valid()
      ensures ok <==> MatchRepo(repo).Some?
      ensures ok ==> author == MatchRepo(repo).value.author && project == MatchRepo(repo).value.project
      ensures !ok ==> author == old(author) && project == old(project)
    {
      var found := MatchRepo(repo);
      if found.None? {
        return false;
      }
      author := found.value.author;
      project := found.value.project;
      return true;
    }

    /** `getRepoBranches`: with a matching URL whose author and project are
        both non-empty, one request to the branch list endpoint; a response
        replaces `branches` with the names in response order, a failed
        request leaves them. The result is `branches`, or `[]` when no
        request was made. */
    method GetRepoBranches(api: string -> Option<seq<BranchObject>>)
      returns (result: seq<string>, requests: seq<string>)
      requires Valid()
      modifies this`author, this`project, this`branches
      ensures Valid()
      ensures MatchRepo(repo).Some? ==>
        author == MatchRepo(repo).value.author && project == MatchRepo(repo).value.project
      ensures MatchRepo(repo).None? ==> author == old(author) && project == old(project)
      ensures !(MatchRepo(repo).Some? && Truthy(author) && Truthy(project)) ==>
        requests == [] && result == [] && branches == old(branches)
      ensures MatchRepo(repo).Some? && Truthy(author) && Truthy(project) ==>
        var url := BranchesApiUrl(author.value, project.value);
        && requests == [url]
        && branches == (match api(url) case Some(objects) => BranchNames(objects) case None => old(branches))
        && result == branches
    {
      var ok := ValidGithubUrl();
      if !ok || !Truthy(author) || !Truthy(project) {
        return [], [];
      }
      var url := BranchesApiUrl(author.value, project.value);
      requests := [url];
      match api(url) {
        case Some(objects) =>
          branches := BranchNames(objects);
        case None =>
      }
      result := branches;
    }

    /** `#validBranch`: refresh the branch list, then keep the requested
        branch when it is set and listed, otherwise fall back to `main` or
        `master`. */
    method ValidBranch(api: string -> Option<seq<BranchObject>>) returns (requests: seq<string>)
      requires Valid()
      modifies this`author, this`project, this`branches, this`branch
      ensures Valid()
      ensures branch == Some(ResolveBranch(old(branch), branches))
      ensures MatchRepo(repo).Some? ==>
        author == MatchRepo(repo).value.author && project == MatchRepo(repo).value.project
      ensures MatchRepo(repo).None? ==> author == old(author) && project == old(project)
      ensures !(MatchRepo(repo).Some? && Truthy(author) && Truthy(project)) ==>
        requests == [] && branches == old(branches)
      ensures MatchRepo(repo).Some? && Truthy(author) && Truthy(project) ==>
        var url := BranchesApiUrl(author.value, project.value);
        && requests == [url]
        && branches == (match api(url) case Some(objects) => BranchNames(objects) case None => old(branches))
    {
      var _, sent := GetRepoBranches(api);
      requests := sent;
      if Truthy(branch) && branch.value in branches {
        return;
      }
      branch := Some(if "main" in branches then "main" else "master");
    }

    /** `init`: with a repository URL that does not match, nothing changes,
        no request is made and there is no loader; otherwise the branch is
        resolved, the loader becomes ready and is returned. */
    method Init(api: string -> Option<seq<BranchObject>>) returns (loader: RepoLoader?, requests: seq<string>)
      requires Valid()
      modifies this`author, this`project, this`branches, this`branch, this`ready
      ensures Valid()
      ensures MatchRepo(repo).None? ==>
        && loader == null && requests == []
        && ready == old(ready) && branch == old(branch) && branches == old(branches)
        && author == old(author) && project == old(project)
      ensures MatchRepo(repo).Some? ==>
        var m := MatchRepo(repo).value;
        && loader == this && ready
        && author == m.author && project == m.project
        && branch == Some(ResolveBranch(old(branch), branches))
        && (Truthy(m.author) && Truthy(m.project) ==>
              var url := BranchesApiUrl(m.author.value, m.project.value);
              && requests == [url]
              && branches == (match api(url) case Some(objects) => BranchNames(objects) case None => old(branches)))
        && (!(Truthy(m.author) && Truthy(m.project)) ==> requests == [] && branches == old(branches))
    {
      var ok := ValidGithubUrl();
      if !ok {
        return null, [];
      }
      requests := ValidBranch(api);
      ready := true;
      return this, requests;
    }

    /** `recursiveLoader`: refused unless the loader is ready; otherwise the
        document loader is built for the repository and branch and every
        document of its stream is collected, in stream order; a stream that
        throws rejects with its error and the collected documents are lost. */
    method RecursiveLoader<D>(stream: StreamRequest -> DocStream<D>) returns (result: Result<seq<D>>)
      ensures !ready ==> result == Failure(NotReadyMessage)
      ensures ready ==>
        var source := stream(StreamRequest(repo, GithubLoaderOptions(branch, false, 5, "ignore")));
        result == if source.error.Some? then Failure(source.error.value) else Success(source.docs)
    {
      if !ready {
        return Failure(NotReadyMessage);
      }
      var request := StreamRequest(repo, GithubLoaderOptions(branch, false, 5, "ignore"));
      var source := stream(request);
      var docs: seq<D> := [];
      var i := 0;
      while i < |source.docs|
        invariant 0 <= i <= |source.docs|
        invariant docs == source.docs[..i]
      {
        docs := docs + [source.docs[i]];
        i := i + 1;
      }
      if source.error.Some? {
        return Failure(source.error.value);
      }
      assert source.docs[..i] == source.docs;
      return Success(docs);
    }
  }
}
