# Confluence and GitHub connectors of the collector

This project models two document connectors of the AnythingLLM collector.

**The Confluence space connector.** `validSpaceUrl` sorts a space URL into one of three shapes. It tries them in a fixed order:

1. the Atlassian-hosted `https://{subdomain}.atlassian.net/wiki/spaces/{spaceKey}…`;
2. the custom-domain `https://{[sub.]domain.tld}/wiki/spaces/{spaceKey}…`;
3. the human-readable `https://{[sub.]domain.tld}/display/{spaceKey}…`.

`generateCustomDomain` puts the host back together. `loadConfluence` checks the credentials, then the URL. It derives the base address of the page loader and loads the pages. A loader error becomes a failure reason. It writes one record per non-empty page and answers with a success or failure envelope.

**The GitHub repository loader.** `RepoLoader` is an object with the fields `ready`, `repo`, `branch`, `author`, `project` and `branches`. It:

- checks the repository URL against `https://github.com/(:author)/(:project)`;
- fetches the branch list;
- settles on the requested branch, `main` or `master`;
- becomes ready;
- once ready, streams the repository's documents.

The files:

- `common.dfy` (module `Common`): `Option`/`Result`, and the JavaScript notions the code leans on. These are truthiness, template-literal interpolation of a possibly undefined value, and the text of an optional capture.
- `url_pattern.dfy` (module `UrlPattern`): the pieces of the `url-pattern` grammar the patterns use. These are an optional named segment `(:x)`, whose value is a greedy run of `a-zA-Z0-9-_~ %`, a literal prefix, and the text the wildcard `*` (compiled to `(.*?)`) can match: `IsLineTerminator` and `LineFree`, since `.` matches no line terminator.
- `text.dfy` (module `Text`): `indexOf`, `split` on a string separator, `join`, `slice(0, n)` and ASCII `toLowerCase`.
- `confluence.dfy` (module `Confluence`): the Confluence connector.
- `repo_loader.dfy` (module `GithubRepo`): the GitHub loader, as a class.

The page loader, the GitHub branch API and the document stream are function parameters. Each method returns the requests it made and, for Confluence, the records it wrote, in order. `v4()` is the function `uuid(n)`: call 0 names the folder, and call `k+1` is the id of the `k`-th record written. The timestamp is `clock(k)`. `slugify` and the token count are parameters too.

Where the obvious reading and the code differ, the model follows the code:

- The credentials are checked before the URL shape.
- The zero-pages test looks at the loaded pages before empty pages are skipped. A space whose pages are all empty therefore succeeds and writes nothing.
- Only empty content is skipped; whitespace-only content is written.
- The error reason is the text between the first `Error:` and the next one, not everything after the first.
- A loader error with an empty message gives the empty reason. `??` only replaces a missing message.
- The Atlassian subdomain is optional in its pattern. Without one, the base address and `docSource` read `undefined`.
- An Atlassian-hosted URL with a subdomain also fits the custom `/wiki/spaces/` pattern (domain `atlassian`, tld `net`). Only the order of the tests makes it Atlassian.

## Model

| member | source | states |
|---|---|---|
| Confluence.GenerateCustomDomain | collector/utils/extensions/Confluence/index.js:17-19 | the host ends with `domain.tld` and starts with `subdomain.` when the subdomain is truthy; it is longer than `domain.tld` by exactly that prefix, so nothing else is added |
| Confluence.CustomDomainSplitsIntoParts | collector/utils/extensions/Confluence/index.js:17-19 | the generated host is `domain.tld`, with `subdomain.` in front exactly when a subdomain is present: split on its dots it gives back the subdomain (if any), the domain and the tld |
| Confluence.MatchAtlassian | collector/utils/extensions/Confluence/index.js:23 | a match of `https\://(:subdomain).atlassian.net/wiki/spaces/(:spaceKey)*` on the whole URL starts with `https://`, has no domain, tld or custom domain, its subdomain and key are captures and its wildcard has no line terminator |
| Confluence.AtlassianMatchIsUrl | collector/utils/extensions/Confluence/index.js:23 | whatever the Atlassian pattern matches is the Atlassian URL built from the match's subdomain, space key and wildcard, each capture a run of value characters and the wildcard without line terminators |
| Confluence.AtlassianUrlMatches | collector/utils/extensions/Confluence/index.js:23 | every Atlassian URL built from captures and a wildcard text without line terminators matches the Atlassian pattern and gives those captures back |
| Confluence.ParseHost | collector/utils/extensions/Confluence/index.js:29 | what `(:subdomain.):domain.:tld` reads is a well-formed host (optional subdomain, domain and tld, each a run of value characters), and the text after it cannot extend the tld |
| Confluence.ParseHostIsHost | collector/utils/extensions/Confluence/index.js:29 | what `(:subdomain.):domain.:tld` reads off a text is a well-formed host followed by the rest of the text |
| Confluence.ParseHostOf | collector/utils/extensions/Confluence/index.js:29 | a well-formed host followed by text that starts with neither a value character nor a dot is read back as that host and that text |
| Confluence.MatchHosted | collector/utils/extensions/Confluence/index.js:29-36 | a match of the custom or human-readable pattern starts with `https://`, has a well-formed host with domain and tld, no custom domain yet, a captured key and a wildcard without line terminators |
| Confluence.HostedMatchIsUrl | collector/utils/extensions/Confluence/index.js:29-36 | whatever the custom or human-readable pattern matches is the URL built from the host, the path, the space key and the wildcard, the wildcard without line terminators |
| Confluence.HostedUrlMatches | collector/utils/extensions/Confluence/index.js:29-36 | every custom or human-readable URL built from captures and a wildcard text without line terminators matches its pattern and gives those captures back |
| Confluence.ValidSpaceUrl | collector/utils/extensions/Confluence/index.js:21-44 | `valid` holds exactly when `result` is present, and exactly when one of the three patterns matches; a custom domain is present exactly for the two custom shapes, which set `humanReadable`; the URL is the one rebuilt from the result |
| Confluence.ValidSpaceUrlTakesFirstMatch | collector/utils/extensions/Confluence/index.js:21-44 | the result is exactly the match of the first pattern that matches, in the order Atlassian (no `humanReadable`), custom `/wiki/spaces/` (`humanReadable` false), `/display/` (`humanReadable` true), the two custom ones with the generated custom domain; with no match, `{valid: false, result: null}` |
| Confluence.AtlassianShapeWinsOverCustom | collector/utils/extensions/Confluence/index.js:23-33 | an Atlassian URL with a subdomain (and a wildcard text without line terminators) also matches the custom `/wiki/spaces/` pattern, yet is classified as Atlassian, with no custom domain and no `humanReadable` |
| Confluence.ValidUrlIsLineFree | collector/utils/extensions/Confluence/index.js:12-44 | an accepted space URL has no line terminator anywhere: `*` compiles to `(.*?)`, whose `.` matches none, and the captures and literals hold none |
| Confluence.WikiAndDisplayShapesAreDisjoint | collector/utils/extensions/Confluence/index.js:29-36 | no URL matches both the custom `/wiki/spaces/` pattern and the `/display/` pattern |
| Confluence.HumanReadableOnlyForDisplay | collector/utils/extensions/Confluence/index.js:21-44 | `humanReadable` is true exactly when the `/display/` pattern matches and neither earlier pattern does |
| Confluence.BaseUrl | collector/utils/extensions/Confluence/index.js:65-70 | the base address starts with `https://` and ends with `/wiki` unless the URL is human-readable |
| Confluence.BaseUrlLocatesSpace | collector/utils/extensions/Confluence/index.js:65-70 | the base address by shape: `https://{subdomain}.atlassian.net/wiki`, `https://{customDomain}/wiki`, or `https://{customDomain}` for `/display/`; the space URL is the base address followed by the space path and key |
| Confluence.MissingSubdomainRendersUndefined | collector/utils/extensions/Confluence/index.js:65-67 | an Atlassian URL without a subdomain (and with a wildcard text without line terminators) is accepted, and its base address is `https://undefined.atlassian.net/wiki` |
| Confluence.ErrorText | collector/utils/extensions/Confluence/index.js:88 | there is an error text exactly when the error has a message, and it is empty only when the message is |
| Confluence.ErrorTextWithoutMarker | collector/utils/extensions/Confluence/index.js:88 | a loader error message without `Error:` is the reason as it is |
| Confluence.ErrorTextUpToNextMarker | collector/utils/extensions/Confluence/index.js:88 | with two markers, the reason is the text between the first and the second, or the whole message when that text is empty |
| Confluence.ErrorTextToEnd | collector/utils/extensions/Confluence/index.js:88 | with a single marker, the reason is all the text after it, or the whole message when nothing follows it |
| Confluence.FailureReason | collector/utils/extensions/Confluence/index.js:95 | `error ?? ...`: the error text whenever there is one, even an empty one; the no-pages reason only when there is none |
| Confluence.Destination | collector/utils/extensions/Confluence/index.js:98-100 | the destination folder name has no upper-case letter |
| Confluence.WordCount | collector/utils/extensions/Confluence/index.js:125 | the word count is the number of single spaces plus one |
| Confluence.NormalizePage | collector/utils/extensions/Confluence/index.js:116-137 | the record of the `k`-th written page goes to the destination folder, takes the `(k+1)`-th uuid as its id and the `k`-th timestamp, and its file name ends with `-` and that id |
| Confluence.Kept | collector/utils/extensions/Confluence/index.js:113-114 | no more pages are kept than were loaded, and every kept page has non-empty content |
| Confluence.KeptConcat | collector/utils/extensions/Confluence/index.js:113-114 | the skip test treats each page on its own: keeping pages distributes over concatenation, in page order |
| Confluence.KeptAreTheNonEmptyPages | collector/utils/extensions/Confluence/index.js:113-114 | a loaded page is kept if and only if its content is non-empty |
| Confluence.AllEmptyPagesKeepNothing | collector/utils/extensions/Confluence/index.js:92-114 | a space whose pages all have empty content keeps no page, so it writes no record |
| Confluence.WordsRejoinToContent | collector/utils/extensions/Confluence/index.js:125 | the pieces `split(" ")` counts, joined by single spaces, give back the page content |
| Confluence.DocumentTracesPage | collector/utils/extensions/Confluence/index.js:116-128 | a record keeps the page content; its `chunkSource` starts with `confluence://` followed by the page URL, and its `url` is that page URL plus `.page`; its word count is the number of single spaces plus one; its title is the page title when that is non-empty and the page source otherwise; its author is the subdomain and its source `{subdomain} Confluence` |
| Confluence.WriteDocuments | collector/utils/extensions/Confluence/index.js:113-138 | the write loop writes, in page order, one record for each non-empty page, the `k`-th numbered `k`, and nothing for the empty ones |
| Confluence.LoadConfluence | collector/utils/extensions/Confluence/index.js:46-147 | missing credentials fail with the credentials reason before any request; an unrecognised URL then fails with the format reason before any request; otherwise exactly one request goes to the loader, with the shape's base address and the key; an error or no pages fails with the error text or the no-pages reason and writes nothing; otherwise the envelope carries the key and the folder, and the records are those of the non-empty pages |
| Confluence.LoadSpace | collector/utils/extensions/Confluence/index.js:65-147 | for an accepted space URL: one loader request with the base address, the key and the credentials; the failure and success envelopes and the writes, as for the connector |
| Text.JoinSplitOn | collector/utils/extensions/Confluence/index.js:88 | `split` loses nothing: its pieces joined by the separator give back the string |
| Text.SecondPieceBetween | collector/utils/extensions/Confluence/index.js:88 | `split(sep)[1]` is the text between the first two occurrences of the separator |
| Text.SplitCount | collector/utils/extensions/Confluence/index.js:125 | splitting on one character gives one piece more than the character occurs |
| Text.PiecesAvoidSeparator | collector/utils/extensions/Confluence/index.js:125 | no piece of a split on a character contains that character |
| Text.ToLowerIsLower | collector/utils/extensions/Confluence/index.js:98-100 | the lower-cased folder name holds no upper-case letter, and lower-casing it again changes nothing |
| GithubRepo.MatchGithubUrl | collector/utils/extensions/GithubRepo/RepoLoader/index.js:14-16 | a match of `https\://github.com/(:author)/(:project)` on the whole URL starts with `https://github.com/` and its author and project are captures |
| GithubRepo.GithubMatchIsUrl | collector/utils/extensions/GithubRepo/RepoLoader/index.js:14-15 | whatever the repository pattern matches is `https://github.com/{author}/{project}` built from its two captures |
| GithubRepo.GithubUrlMatches | collector/utils/extensions/GithubRepo/RepoLoader/index.js:14-15 | every repository URL built from two captures matches and gives them back |
| GithubRepo.NothingAfterProject | collector/utils/extensions/GithubRepo/RepoLoader/index.js:14-15 | a URL with anything after the project, a trailing slash included, does not match |
| GithubRepo.BranchNames | collector/utils/extensions/GithubRepo/RepoLoader/index.js:71 | the branch names are those of the response, one for each entry, in response order |
| GithubRepo.ResolveBranch | collector/utils/extensions/GithubRepo/RepoLoader/index.js:27-30 | the settled branch is listed, or it is `master` |
| GithubRepo.ResolvedBranchIsListedOrMaster | collector/utils/extensions/GithubRepo/RepoLoader/index.js:25-33 | the settled branch is the listed requested branch, else `main` if listed, else `master`; it is listed unless it is the `master` fallback |
| GithubRepo.ResolveBranchIdempotent | collector/utils/extensions/GithubRepo/RepoLoader/index.js:25-33 | settling again against the same branch list keeps the branch |
| GithubRepo.ResolveBranchExamples | collector/utils/extensions/GithubRepo/RepoLoader/index.js:27-30 | `[develop, master]` with no request gives `master`; `[main, dev]` with no request gives `main`; `[main]` with request `feature-x` gives `main` |
| GithubRepo.RepoLoader.constructor | collector/utils/extensions/GithubRepo/RepoLoader/index.js:2-10 | a new loader is not ready, has no author, no project and no branches, and keeps the given repository and branch |
| GithubRepo.RepoLoader.ValidGithubUrl | collector/utils/extensions/GithubRepo/RepoLoader/index.js:12-21 | true exactly when the repository URL matches; on a match `author` and `project` take the captures, otherwise they are left as they were |
| GithubRepo.RepoLoader.GetRepoBranches | collector/utils/extensions/GithubRepo/RepoLoader/index.js:60-79 | without a match or with an empty author or project: no request, `[]`, branches unchanged; otherwise one request to `https://api.github.com/repos/{author}/{project}/branches`; a response replaces the branches with its names in order, a failure keeps them; the result is the branches |
| GithubRepo.RepoLoader.ValidBranch | collector/utils/extensions/GithubRepo/RepoLoader/index.js:25-33 | after refreshing the branch list, the branch is the one settled from the previous branch and the new list; `author` and `project` take the captures on a match and are unchanged otherwise |
| GithubRepo.RepoLoader.Init | collector/utils/extensions/GithubRepo/RepoLoader/index.js:35-40 | with a URL that does not match, nothing changes, no request is made and no loader is returned; otherwise the branch is settled, the loader is ready and is returned |
| GithubRepo.RepoLoader.RecursiveLoader | collector/utils/extensions/GithubRepo/RepoLoader/index.js:42-58 | a loader that is not ready fails with `RepoLoader is not in ready state!`; a ready one builds the stream for its repository and branch (not recursive, concurrency 5, unknown files ignored) and returns every streamed document, in stream order, or fails with the stream's error when the stream throws |

## Left out

- File system: the output folder path (`NODE_ENV`, `STORAGE_DIR`), `existsSync`/`mkdirSync` and `writeToServerDocuments`. Each write is the record with its file name and the folder slug, not the resolved path.
- `console.log` and the asynchronous scheduling of `await`, `then`/`catch` and `for await`. Each call is taken to complete before the next statement.
- `v4()`, `new Date().toLocaleString()`, `slugify` and `tokenizeString` are parameters, not implementations. `toLowerCase` is modelled on ASCII letters only.
- The `url-pattern` library in general. Only the three Confluence patterns and the GitHub pattern are modelled, each as an anchored matcher built from optional segments, literals and, for Confluence, a wildcard that matches no line terminator.
- `ConfluencePagesLoader` and `GithubRepoLoader` (LangChain) and `fetch` are function parameters. A failed GitHub request, whether rejected, not ok or malformed, is one `None`.
- A page's `metadata.title` and `metadata.url` are taken to be strings; an undefined title is not modelled.
- A thrown `null` or `undefined` is not modelled: reading `e.message` in the catch then throws and `loadConfluence` rejects. A thrown value without a `message` is modelled and gives the no-pages reason.
- The React front end (sidebar and embed app) is presentation only and is not part of this model.
