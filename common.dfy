/** The inline reference roles of adi_doctools/role/common.py. A role receives
    the raw markup and the text between the backquotes and returns the nodes
    to insert (a link, or an inline span) and a list of system messages. The
    builder's configuration and its table of repository branches are passed
    in as an `Env`. */
module Common {
  import opened Wrappers
  import opened PyStr

  /** The two kinds of node the roles produce. A `Reference` is a link whose
      caption is `text` and whose target is `refuri`. */
  datatype Node =
    | Reference(rawtext: string, text: string, refuri: string, classes: seq<string>)
    | Inline(text: string, classes: seq<string>)

  /** What a role returns: the nodes to insert and the system messages. */
  datatype RoleOutput = RoleOutput(nodes: seq<Node>, messages: seq<Node>)

  /** The exceptions a role can raise: a configuration value that was never
      registered, or a URL template that `format` rejects. */
  datatype RoleError = MissingConfig(key: string) | BadTemplate(template: string)

  type RoleResult = Result<RoleOutput, RoleError>

  /** The builder state the roles read: the configuration values (`url_dokuwiki`,
      `url_git_gui`, ...) and the default branch of each known repository. */
  datatype Env = Env(config: map<string, string>, repoBranches: map<string, string>)

  /** `get_url_config`: the configuration value `url_<name>`; reading one that
      was never registered raises. */
  function GetUrlConfig(env: Env, name: string): (r: Result<string, RoleError>)
    ensures r.Success? <==> "url_" + name in env.config
    ensures r.Success? ==> r.value == env.config["url_" + name]
    ensures r.Failure? ==> r.error == MissingConfig("url_" + name)
  {
    var key := "url_" + name;
    if key in env.config then Success(env.config[key]) else Failure(MissingConfig(key))
  }

  // ------------------------------------------------------------ outer <inner>

  /** Role text of the form `outer <inner>`: it holds a `<` and ends in `>`. */
  predicate Marked(text: string) {
    '<' in text && text[|text| - 1] == '>'
  }

  /** In marked text, everything before the first `<`. */
  function OuterPart(text: string): (o: string)
    requires Marked(text)
    ensures '<' !in o
    ensures |o| < |text| - 1 && text[..|o|] == o && text[|o|] == '<'
  {
    text[..Find(text, '<')]
  }

  /** In marked text, everything between the first `<` and the final `>`. */
  function InnerPart(text: string): (i: string)
    requires Marked(text)
    ensures text == OuterPart(text) + "<" + i + ">"
  {
    var pos := Find(text, '<');
    assert text == text[..pos] + "<" + text[pos + 1..|text| - 1] + ">";
    text[pos + 1..|text| - 1]
  }

  /** `get_outer_inner`: splits marked text into its stripped outer part and
      its inner part, and leaves any other text (the empty string included)
      whole, with no outer part. */
  function GetOuterInner(text: string): (r: (Option<string>, string))
    ensures Marked(text) ==> r == (Some(Strip(OuterPart(text))), InnerPart(text))
    ensures !Marked(text) ==> r == (None, text)
  {
    var pos := Find(text, '<');
    if pos != -1 && text[|text| - 1] == '>' then
      (Some(Strip(Slice(text, 0, pos))), Slice(text, pos + 1, -1))
    else
      (None, text)
  }

  /** Writing `outer <inner>` and splitting it again gives back both parts,
      for any stripped `outer` without a `<` and any `inner`. */
  lemma OuterInnerRoundTrip(outer: string, inner: string)
    requires '<' !in outer && Stripped(outer)
    ensures GetOuterInner(outer + " <" + inner + ">") == (Some(outer), inner)
  {
    var text := outer + " <" + inner + ">";
    var n := |outer|;
    assert text[n + 1] == '<';
    assert text[..n + 1] == outer + " ";
    assert Find(text, '<') == n + 1;
    assert Marked(text);
    StripTrailingSpace(outer, ' ');
    assert text[n + 2..|text| - 1] == inner;
  }

  // -------------------------------------------------------------- link texts

  /** The caption of a `dokuwiki` or vendor link without outer text: what
      follows the last `/` of the path, or the whole path when it has none. */
  function DefaultLinkText(path: string): (r: string)
    ensures '/' !in r
    ensures |r| <= |path| && r == path[|path| - |r|..]
    ensures |r| < |path| ==> path[|path| - |r| - 1] == '/'
  {
    SliceFrom(path, RFind(path, '/') + 1)
  }

  // -------------------------------------------------------------------- roles

  /** `color(class_name)`: the text, unchanged, in an inline span of that
      class. */
  function Color(className: string, text: string): (r: RoleOutput)
    ensures r.nodes == [Inline(text, [className])] && r.messages == []
  {
    RoleOutput([Inline(text, [className])], [])
  }

  /** `datasheet()`: deprecated; inserts nothing. */
  function Datasheet(): (r: RoleOutput)
    ensures r.nodes == [] && r.messages == []
  {
    RoleOutput([], [])
  }

  /** `dokuwiki()`: a link to `<url_dokuwiki>/<path>`. Its body in the source
      is the body of `vendor` with the name "dokuwiki". */
  function Dokuwiki(env: Env, rawtext: string, text: string): (r: RoleResult)
    ensures r.Success? <==> "url_dokuwiki" in env.config
    ensures r.Failure? ==> r.error == MissingConfig("url_dokuwiki")
    ensures r.Success? && Marked(text) ==>
      r.value == RoleOutput([Reference(rawtext, Strip(OuterPart(text)),
                                       env.config["url_dokuwiki"] + "/" + InnerPart(text), [])], [])
    ensures r.Success? && !Marked(text) ==>
      r.value == RoleOutput([Reference(rawtext, DefaultLinkText(text),
                                       env.config["url_dokuwiki"] + "/" + text, [])], [])
  {
    assert "url_" + "dokuwiki" == "url_dokuwiki";
    Vendor("dokuwiki", env, rawtext, text)
  }

  /** `ez()`: a link to EngineerZone, labelled "EngineerZone" by default; a
      path of just `/` links to the site's root. */
  function Ez(env: Env, rawtext: string, text: string): (r: RoleResult)
    ensures r.Success? <==> "url_ez" in env.config
    ensures r.Failure? ==> r.error == MissingConfig("url_ez")
    ensures r.Success? ==>
      var path := if Marked(text) then InnerPart(text) else text;
      r.value.messages == [] &&
      r.value.nodes == [Reference(rawtext,
                                  if Marked(text) then Strip(OuterPart(text)) else "EngineerZone",
                                  env.config["url_ez"] + "/" + (if path == "/" then "" else path),
                                  ["icon", "ez"])]
  {
    var (outer, path) := GetOuterInner(text);
    var path' := if path == "/" then "" else path;
    assert "url_" + "ez" == "url_ez";
    var base :- GetUrlConfig(env, "ez");
    var caption := if outer.None? then "EngineerZone" else outer.value;
    Success(RoleOutput([Reference(rawtext, caption, base + "/" + path', ["icon", "ez"])], []))
  }

  /** `adi()`: a link to `<url_adi>/<id>`, labelled with the id by default. */
  function Adi(env: Env, rawtext: string, text: string): (r: RoleResult)
    ensures r.Success? <==> "url_adi" in env.config
    ensures r.Failure? ==> r.error == MissingConfig("url_adi")
    ensures r.Success? && Marked(text) ==>
      r.value == RoleOutput([Reference(rawtext, Strip(OuterPart(text)),
                                       env.config["url_adi"] + "/" + InnerPart(text), ["icon", "adi"])], [])
    ensures r.Success? && !Marked(text) ==>
      r.value == RoleOutput([Reference(rawtext, text, env.config["url_adi"] + "/" + text, ["icon", "adi"])], [])
  {
    var (name, adiId) := GetOuterInner(text);
    var caption := if name.None? then adiId else name.value;
    assert "url_" + "adi" == "url_adi";
    var base :- GetUrlConfig(env, "adi");
    Success(RoleOutput([Reference(rawtext, caption, base + "/" + adiId, ["icon", "adi"])], []))
  }

  /** `vendor(vendor_name)`: a link to `<url_<vendor_name>>/<path>`, labelled
      like a `dokuwiki` link. */
  function Vendor(vendorName: string, env: Env, rawtext: string, text: string): (r: RoleResult)
    ensures r.Success? <==> "url_" + vendorName in env.config
    ensures r.Failure? ==> r.error == MissingConfig("url_" + vendorName)
    ensures r.Success? && Marked(text) ==>
      r.value == RoleOutput([Reference(rawtext, Strip(OuterPart(text)),
                                       env.config["url_" + vendorName] + "/" + InnerPart(text), [])], [])
    ensures r.Success? && !Marked(text) ==>
      r.value == RoleOutput([Reference(rawtext, DefaultLinkText(text),
                                       env.config["url_" + vendorName] + "/" + text, [])], [])
  {
    var (outer, path) := GetOuterInner(text);
    var caption := if outer.None? then DefaultLinkText(path) else outer.value;
    var base :- GetUrlConfig(env, vendorName);
    Success(RoleOutput([Reference(rawtext, caption, base + "/" + path, [])], []))
  }

  // ---------------------------------------------------------------------- git

  /** `get_default_brach`: the branch recorded for `repo`, or "main". */
  function DefaultBranch(env: Env, repo: string): (b: string)
    ensures repo in env.repoBranches ==> b == env.repoBranches[repo]
    ensures repo !in env.repoBranches ==> b == "main"
  {
    if repo in env.repoBranches then env.repoBranches[repo] else "main"
  }

  /** The first step of `git`: the link kind and the rest of the path. The
      kind is "raw" when the text before the first `+` is "raw"; with no `+`
      at all, the path minus its last character is compared with "raw"
      instead, and the whole path is kept. */
  function SplitKind(path: string): (r: (string, string))
    ensures r.0 == "raw" || r.0 == "gui"
    ensures '+' in path ==>
      var n := |path| - |r.1| - 1;
      0 <= n && path[n] == '+' && '+' !in path[..n] && r.1 == path[n + 1..] &&
      (r.0 == "raw" <==> path[..n] == "raw")
    ensures '+' !in path ==>
      r.1 == path && (r.0 == "raw" <==> |path| == 4 && path[..3] == "raw")
  {
    var pos := Find(path, '+');
    var before := Slice(path, 0, pos);
    var after := SliceFrom(path, pos + 1);
    assert 0 <= pos ==> before == path[..pos] && after == path[pos + 1..];
    assert pos == -1 ==> after == path;
    assert pos == -1 && path != [] ==> before == path[..|path| - 1];
    DropLastIsRaw(path);
    (if before == "raw" then "raw" else "gui", after)
  }

  /** The text minus its last character is "raw" exactly when the text is
      "raw" plus one character. */
  lemma DropLastIsRaw(path: string)
    ensures path != [] ==> (path[..|path| - 1] == "raw" <==> |path| == 4 && path[..3] == "raw")
  {
  }

  /** The second step of `git`: the branch and the rest of the path. The
      branch is the text before the first `:`; when there is no `:`, or it
      is the first character, the default branch is used instead (and a
      leading `:` is dropped). */
  function SplitBranch(default: string, path: string): (r: (string, string))
    ensures ':' !in path ==> r == (default, path)
    ensures 0 < |path| && path[0] == ':' ==> r == (default, path[1..])
    ensures 0 < |path| && path[0] != ':' && ':' in path ==>
      path == r.0 + ":" + r.1 && ':' !in r.0 && r.0 != []
  {
    var pos := Find(path, ':');
    var branch := if pos == 0 || pos == -1 then default else path[..pos];
    (branch, SliceFrom(path, pos + 1))
  }

  /** The caption of a `git` link without outer text: the path, or the
      repository's name when the path is just `/`. */
  function GitLinkText(altName: string, path: string): (r: string)
    ensures r == path <==> path != "/"
    ensures path == "/" ==> r == "ADI " + altName + " repository"
  {
    if path == "/" then
      "ADI " + altName + " repository"
    else path
  }

  /** Where a `git` link points: the kind of URL ("gui" or "raw"), the branch
      and the path inside the repository. */
  datatype GitTarget = GitTarget(kind: string, branch: string, path: string)

  /** The two steps of `git` that take the role text apart. */
  function ParseGitPath(defaultBranch: string, path: string): (g: GitTarget)
    ensures g.kind == "raw" || g.kind == "gui"
  {
    var (kind, afterKind) := SplitKind(path);
    var (branch, rest) := SplitBranch(defaultBranch, afterKind);
    GitTarget(kind, branch, rest)
  }

  /** The path of a `git` link is a suffix of the role text. */
  lemma GitPathIsSuffix(defaultBranch: string, path: string)
    ensures EndsWith(path, ParseGitPath(defaultBranch, path).path)
  {
    var afterKind := SplitKind(path).1;
    KindRestIsSuffix(path);
    BranchRestIsSuffix(defaultBranch, afterKind);
    SuffixOfSuffix(path, afterKind, SplitBranch(defaultBranch, afterKind).1);
  }

  /** What the kind step leaves is a suffix of its input. */
  lemma KindRestIsSuffix(path: string)
    ensures EndsWith(path, SplitKind(path).1)
  {
  }

  /** What the branch step leaves is a suffix of its input. */
  lemma BranchRestIsSuffix(defaultBranch: string, path: string)
    ensures EndsWith(path, SplitBranch(defaultBranch, path).1)
  {
    var (branch, rest) := SplitBranch(defaultBranch, path);
    if 0 < |path| && path[0] != ':' && ':' in path {
      assert path == branch + ":" + rest;
      assert path[|path| - |rest|..] == rest;
    }
  }

  /** A suffix of a suffix is a suffix. */
  lemma SuffixOfSuffix(s: string, t: string, u: string)
    requires EndsWith(s, t) && EndsWith(t, u)
    ensures EndsWith(s, u)
  {
    assert t[|t| - |u|..] == s[|s| - |u|..];
  }

  /** `template.format(repo=repo)`, raising on a template it rejects. */
  function FormatUrl(template: string, repo: string): (r: Result<string, RoleError>)
    ensures r.Success? <==> WellFormedTemplate(template)
    ensures r.Failure? ==> r.error == BadTemplate(template)
    ensures r.Success? ==> Format(template, repo) == Some(r.value)
  {
    FormatDefinedIff(template, repo);
    match Format(template, repo)
    case Some(url) => Success(url)
    case None => Failure(BadTemplate(template))
  }

  /** The target of a `git` link: the `url_git_<kind>` template with the
      repository filled in, then the branch, then the path, where a path of
      just `/` stands for the repository's root. */
  function GitUrl(env: Env, repo: string, g: GitTarget): (r: Result<string, RoleError>)
    ensures
      var key := "url_git_" + g.kind;
      && (r.Success? <==> key in env.config && Format(env.config[key], repo).Some?)
      && (r.Failure? && key !in env.config ==> r.error == MissingConfig(key))
      && (r.Failure? && key in env.config ==> r.error == BadTemplate(env.config[key]))
      && (r.Success? ==>
            r.value == Format(env.config[key], repo).value + "/" + g.branch + "/"
                       + (if g.path == "/" then "" else g.path))
  {
    assert "url_" + ("git_" + g.kind) == "url_git_" + g.kind;
    var template :- GetUrlConfig(env, "git_" + g.kind);
    var url :- FormatUrl(template, repo);
    Success(url + "/" + g.branch + "/" + (if g.path == "/" then "" else g.path))
  }

  /** `git(repo, alt_name)`: a link into a repository, labelled with the path
      (or the repository's name for its root) when there is no outer text. */
  function Git(repo: string, altName: string, env: Env, rawtext: string, text: string): (r: RoleResult)
    ensures
      var (outer, path) := GetOuterInner(text);
      var g := ParseGitPath(DefaultBranch(env, repo), path);
      var url := GitUrl(env, repo, g);
      && (r.Success? <==> url.Success?)
      && (r.Failure? ==> r == Failure(url.error))
      && (r.Success? ==>
            r.value == RoleOutput([Reference(rawtext, outer.GetOr(GitLinkText(altName, g.path)),
                                             url.value, ["icon", "git"])], []))
  {
    var (outer, path) := GetOuterInner(text);
    var g := ParseGitPath(DefaultBranch(env, repo), path);
    var url :- GitUrl(env, repo, g);
    Success(RoleOutput([Reference(rawtext, outer.GetOr(GitLinkText(altName, g.path)), url, ["icon", "git"])], []))
  }

  /** With `kind+branch:path`, where `kind` has no `+` and `branch` is a
      non-empty name without `:`, the link uses exactly that branch and path,
      and the "raw" URL when `kind` is "raw". */
  lemma GitExplicitTarget(defaultBranch: string, kind: string, branch: string, path: string)
    requires '+' !in kind && ':' !in branch && branch != []
    ensures ParseGitPath(defaultBranch, kind + "+" + branch + ":" + path)
            == GitTarget(if kind == "raw" then "raw" else "gui", branch, path)
  {
    var text := kind + "+" + branch + ":" + path;
    var rest := branch + ":" + path;
    assert text == kind + "+" + rest;
    KindBeforePlus(kind, rest);
    assert SplitKind(text) == (if kind == "raw" then "raw" else "gui", rest);
    BranchBeforeColon(defaultBranch, branch, path);
    assert SplitBranch(defaultBranch, rest) == (branch, path);
  }

  /** The kind is the text before the first `+`, when there is one. */
  lemma KindBeforePlus(kind: string, rest: string)
    requires '+' !in kind
    ensures SplitKind(kind + "+" + rest) == (if kind == "raw" then "raw" else "gui", rest)
  {
    var text := kind + "+" + rest;
    assert text[|kind|] == '+' && text[..|kind|] == kind;
    assert Find(text, '+') == |kind|;
    assert text[|kind| + 1..] == rest;
  }

  /** The branch is a non-empty text before the first `:`. */
  lemma BranchBeforeColon(defaultBranch: string, branch: string, path: string)
    requires ':' !in branch && branch != []
    ensures SplitBranch(defaultBranch, branch + ":" + path) == (branch, path)
  {
    var rest := branch + ":" + path;
    assert rest[0] == branch[0];
    assert rest[|branch|] == ':' && rest[..|branch|] == branch;
    assert Find(rest, ':') == |branch|;
    assert rest[|branch| + 1..] == path;
  }

  /** Text without `+` or `:` (and not of the form "raw" plus one character)
      is a path on the default branch, with the "gui" URL. */
  lemma GitPlainTarget(defaultBranch: string, path: string)
    requires '+' !in path && ':' !in path
    requires !(|path| == 4 && path[..3] == "raw")
    ensures ParseGitPath(defaultBranch, path) == GitTarget("gui", defaultBranch, path)
  {
  }

  /** Without a `+`, four-character text starting with "raw" selects the raw
      URL although no kind was written, and stays the path. */
  lemma GitRawWithoutPlus(defaultBranch: string, c: char)
    requires c != '+' && c != ':'
    ensures ParseGitPath(defaultBranch, "raw" + [c]) == GitTarget("raw", defaultBranch, "raw" + [c])
  {
    var text := "raw" + [c];
    assert text[..3] == "raw";
    assert '+' !in text && ':' !in text;
  }

  /** A `:` at the start of the path selects the default branch and is
      dropped. */
  lemma GitLeadingColon(defaultBranch: string, path: string)
    requires '+' !in path
    ensures ParseGitPath(defaultBranch, ":" + path) == GitTarget("gui", defaultBranch, path)
  {
    var text := ":" + path;
    assert '+' !in text;
    assert text[1..] == path;
  }

  /** A `git` role raises only when a template it might need is missing or
      malformed. */
  lemma GitSucceedsWithTemplates(repo: string, altName: string, env: Env, rawtext: string, text: string)
    requires "url_git_gui" in env.config && Format(env.config["url_git_gui"], repo).Some?
    requires "url_git_raw" in env.config && Format(env.config["url_git_raw"], repo).Some?
    ensures Git(repo, altName, env, rawtext, text).Success?
  {
    var g := ParseGitPath(DefaultBranch(env, repo), GetOuterInner(text).1);
    GitUrlSucceeds(repo, env, g);
  }

  /** A link target can be built whenever both templates are set and
      format. */
  lemma GitUrlSucceeds(repo: string, env: Env, g: GitTarget)
    requires "url_git_gui" in env.config && Format(env.config["url_git_gui"], repo).Some?
    requires "url_git_raw" in env.config && Format(env.config["url_git_raw"], repo).Some?
    requires g.kind in ["raw", "gui"]
    ensures GitUrl(env, repo, g).Success?
  {
    assert "url_git_" + "raw" == "url_git_raw";
    assert "url_git_" + "gui" == "url_git_gui";
  }

  /** The "gui" target of a link is the formatted "gui" template, then the
      branch, then the path. */
  lemma GuiUrl(env: Env, repo: string, g: GitTarget, base: string)
    requires g.kind == "gui"
    requires "url_git_gui" in env.config && Format(env.config["url_git_gui"], repo) == Some(base)
    ensures GitUrl(env, repo, g) == Success(base + "/" + g.branch + "/" + (if g.path == "/" then "" else g.path))
  {
    assert "url_git_" + "gui" == "url_git_gui";
  }
}
