/** `common_setup` of adi_doctools/role/common.py: the role names it
    registers, the role each name stands for, and the default URL of every
    configuration value the roles read. */
module Setup {
  import opened Wrappers
  import opened PyStr
  import opened Common

  /** The roles the factories `color`, `datasheet`, `dokuwiki`, `ez`, `adi`,
      `vendor` and `git` build, with the arguments the factories capture. */
  datatype Role =
    | ColorRole(className: string)
    | DatasheetRole
    | DokuwikiRole
    | EzRole
    | AdiRole
    | VendorRole(vendorName: string)
    | GitRole(repo: string, altName: string)

  /** Calling a registered role on its text. */
  function Invoke(role: Role, env: Env, rawtext: string, text: string): (r: RoleResult)
    ensures role.ColorRole? || role.DatasheetRole? ==> r.Success?
    ensures r.Failure? && !role.GitRole? ==> r.error.MissingConfig?
    ensures r.Failure? && r.error.MissingConfig? ==> r.error.key !in env.config
  {
    match role
    case ColorRole(className) => Success(Color(className, text))
    case DatasheetRole => Success(Datasheet())
    case DokuwikiRole => Dokuwiki(env, rawtext, text)
    case EzRole => Ez(env, rawtext, text)
    case AdiRole => Adi(env, rawtext, text)
    case VendorRole(vendorName) => Vendor(vendorName, env, rawtext, text)
    case GitRole(repo, altName) => Git(repo, altName, env, rawtext, text)
  }

  /** The repositories that get a `git-<url path>` role, with their names. */
  const GitRepos: seq<(string, string)> := [
    ("hdl", "HDL"),
    ("testbenches", "Testbenches"),
    ("linux", "Linux"),
    ("no-OS", "no-OS"),
    ("libiio", "libiio"),
    ("scopy", "Scopy"),
    ("iio-oscilloscope", "IIO Oscilloscope"),
    ("doctools", "Doctools"),
    ("documentation", "System Level Documentation"),
    ("pyadi-iio", "PyADI-IIO"),
    ("meta-adi", "META-ADI"),
    ("wiki-scripts", "Wiki Scripts")
  ]

  /** The vendors that get a role of their own name. */
  const Vendors: seq<string> := ["xilinx", "intel", "mw"]

  /** The first loop of `common_setup`: one role per vendor, named after it. */
  function VendorRoles(vendors: seq<string>): (r: seq<(string, Role)>)
    ensures |r| == |vendors|
    ensures forall i :: 0 <= i < |r| ==> r[i] == (vendors[i], VendorRole(vendors[i]))
  {
    if vendors == [] then [] else [(vendors[0], VendorRole(vendors[0]))] + VendorRoles(vendors[1..])
  }

  /** The second loop of `common_setup`: one `git-<url path>` role per
      repository. */
  function GitRoles(repos: seq<(string, string)>): (r: seq<(string, Role)>)
    ensures |r| == |repos|
    ensures forall i :: 0 <= i < |r| ==> r[i] == ("git-" + repos[i].0, GitRole(repos[i].0, repos[i].1))
  {
    if repos == [] then [] else [("git-" + repos[0].0, GitRole(repos[0].0, repos[0].1))] + GitRoles(repos[1..])
  }

  /** Every `add_role` call of `common_setup`, in order. */
  function RoleTable(): (r: seq<(string, Role)>)
    ensures |r| == |FixedRoles()| + |Vendors| + |GitRepos| == 21
  {
    FixedRoles() + VendorRoles(Vendors) + GitRoles(GitRepos)
  }

  /** The roles `common_setup` registers one by one, before its loops. */
  function FixedRoles(): (r: seq<(string, Role)>)
    ensures |r| == 6
    ensures forall i :: 0 <= i < |r| && r[i].1.ColorRole? ==> r[i].1.className == r[i].0
    ensures forall i :: 0 <= i < |r| ==> !r[i].1.VendorRole? && !r[i].1.GitRole?
  {
    [ ("red", ColorRole("red")),
      ("green", ColorRole("green")),
      ("datasheet", DatasheetRole),
      ("dokuwiki", DokuwikiRole),
      ("ez", EzRole),
      ("adi", AdiRole) ]
  }

  /** The names of the entries of a role table. */
  function Names(entries: seq<(string, Role)>): (names: seq<string>)
    ensures |names| == |entries|
    ensures forall i :: 0 <= i < |entries| ==> names[i] == entries[i].0
  {
    if entries == [] then [] else [entries[0].0] + Names(entries[1..])
  }

  predicate Distinct(names: seq<string>) {
    forall i, j :: 0 <= i < j < |names| ==> names[i] != names[j]
  }

  /** Registering roles one after another; a later registration of a name
      replaces an earlier one. */
  function Register(registry: map<string, Role>, entries: seq<(string, Role)>): (r: map<string, Role>)
    ensures r.Keys == registry.Keys + NameSet(entries)
    ensures entries != [] ==> var last := entries[|entries| - 1]; last.0 in r && r[last.0] == last.1
    decreases |entries|
  {
    if entries == [] then registry
    else
      var tail := entries[1..];
      assert tail != [] ==> tail[|tail| - 1] == entries[|entries| - 1];
      Register(registry[entries[0].0 := entries[0].1], tail)
  }

  /** The set of names of the entries of a role table. */
  function NameSet(entries: seq<(string, Role)>): set<string> {
    if entries == [] then {} else {entries[0].0} + NameSet(entries[1..])
  }

  /** The roles known after `common_setup`. */
  function Roles(): (r: map<string, Role>)
    ensures r.Keys == NameSet(RoleTable())
  {
    Register(map[], RoleTable())
  }

  /** Registering entries with distinct names keeps every one of them: each
      name ends up bound to its own role, and nothing else is added. */
  lemma RegisterDistinct(registry: map<string, Role>, entries: seq<(string, Role)>)
    requires Distinct(Names(entries))
    ensures Register(registry, entries).Keys == registry.Keys + set i | 0 <= i < |entries| :: entries[i].0
    ensures forall i :: 0 <= i < |entries| ==> Register(registry, entries)[entries[i].0] == entries[i].1
    ensures forall k :: k in registry && k !in Names(entries) ==> Register(registry, entries)[k] == registry[k]
  {
    NameSetIndices(entries);
    RegisterKeeps(registry, entries);
    RegisterLookup(registry, entries);
  }

  /** The names of a table, as a set. */
  lemma {:induction false} NameSetIndices(entries: seq<(string, Role)>)
    ensures NameSet(entries) == set i | 0 <= i < |entries| :: entries[i].0
    decreases |entries|
  {
    if entries != [] {
      var tail := entries[1..];
      NameSetIndices(tail);
      assert (set i | 0 <= i < |entries| :: entries[i].0)
             == {entries[0].0} + set i | 0 <= i < |tail| :: tail[i].0 by {
        forall i | 0 <= i < |entries| ensures i == 0 || entries[i].0 == tail[i - 1].0 { }
        forall i | 0 <= i < |tail| ensures tail[i].0 == entries[i + 1].0 { }
      }
    }
  }

  /** Registering entries leaves the bindings of every other name alone. */
  lemma {:induction false} RegisterKeeps(registry: map<string, Role>, entries: seq<(string, Role)>)
    ensures forall k :: k in registry && k !in Names(entries) ==>
      k in Register(registry, entries) && Register(registry, entries)[k] == registry[k]
    decreases |entries|
  {
    if entries != [] {
      var tail := entries[1..];
      assert Names(entries) == [entries[0].0] + Names(tail);
      RegisterKeeps(registry[entries[0].0 := entries[0].1], tail);
    }
  }

  /** No entry after the `i`-th shares its name. */
  predicate LastOfName(entries: seq<(string, Role)>, i: int) {
    0 <= i < |entries| && forall j :: i < j < |entries| ==> entries[j].0 != entries[i].0
  }

  /** An entry that no later entry shares its name with is the binding in
      force for that name: the last registration of a name wins. */
  lemma RegisterLast(registry: map<string, Role>, entries: seq<(string, Role)>)
    ensures forall i :: LastOfName(entries, i) ==>
      entries[i].0 in Register(registry, entries) && Register(registry, entries)[entries[i].0] == entries[i].1
  {
    forall i | LastOfName(entries, i)
      ensures entries[i].0 in Register(registry, entries) && Register(registry, entries)[entries[i].0] == entries[i].1
    {
      RegisterLastAt(registry, entries, i);
    }
  }

  lemma {:induction false} RegisterLastAt(registry: map<string, Role>, entries: seq<(string, Role)>, i: int)
    requires LastOfName(entries, i)
    ensures entries[i].0 in Register(registry, entries) && Register(registry, entries)[entries[i].0] == entries[i].1
    decreases |entries|
  {
    var tail := entries[1..];
    var registry' := registry[entries[0].0 := entries[0].1];
    assert Register(registry, entries) == Register(registry', tail);
    if i > 0 {
      assert entries[i] == tail[i - 1];
      assert LastOfName(tail, i - 1) by {
        forall j | i - 1 < j < |tail| ensures tail[j].0 != tail[i - 1].0 {
          assert tail[j] == entries[j + 1];
        }
      }
      RegisterLastAt(registry', tail, i - 1);
    } else {
      RegisterKeeps(registry', tail);
      assert entries[0].0 !in Names(tail) by {
        forall k | 0 <= k < |tail| ensures Names(tail)[k] != entries[0].0 {
          assert tail[k] == entries[k + 1];
        }
      }
    }
  }

  /** With distinct names, each name is bound to its own role. */
  lemma RegisterLookup(registry: map<string, Role>, entries: seq<(string, Role)>)
    requires Distinct(Names(entries))
    ensures forall i :: 0 <= i < |entries| ==>
      entries[i].0 in Register(registry, entries) && Register(registry, entries)[entries[i].0] == entries[i].1
  {
    RegisterLast(registry, entries);
    forall i | 0 <= i < |entries| ensures LastOfName(entries, i) {
      forall j | i < j < |entries| ensures entries[j].0 != entries[i].0 {
        assert Names(entries)[i] != Names(entries)[j];
      }
    }
  }

  lemma NamesAppend(a: seq<(string, Role)>, b: seq<(string, Role)>)
    ensures Names(a + b) == Names(a) + Names(b)
  {
    assert forall i :: 0 <= i < |a| + |b| ==> (a + b)[i].0 == (Names(a) + Names(b))[i];
  }

  /** Two lists of distinct names, told apart by a `-` that only the second
      list's names hold, join into one list of distinct names. */
  lemma DistinctAppend(a: seq<string>, b: seq<string>)
    requires Distinct(a) && Distinct(b)
    requires forall i :: 0 <= i < |a| ==> '-' !in a[i]
    requires forall j :: 0 <= j < |b| ==> '-' in b[j]
    ensures Distinct(a + b)
  {
    forall i, j | 0 <= i < j < |a + b| ensures (a + b)[i] != (a + b)[j] {
      if j < |a| {
      } else if i >= |a| {
        assert (a + b)[i] == b[i - |a|] && (a + b)[j] == b[j - |a|];
      } else {
        assert (a + b)[j] == b[j - |a|];
      }
    }
  }

  /** The names of the git roles are "git-" followed by the repositories'
      URL paths, so they are distinct when the paths are. */
  lemma GitRoleNamesDistinct(repos: seq<(string, string)>)
    requires forall i, j :: 0 <= i < j < |repos| ==> repos[i].0 != repos[j].0
    ensures Distinct(Names(GitRoles(repos)))
    ensures forall i :: 0 <= i < |repos| ==> '-' in Names(GitRoles(repos))[i]
  {
    var names := Names(GitRoles(repos));
    assert forall i :: 0 <= i < |repos| ==> names[i] == "git-" + repos[i].0;
    forall i, j | 0 <= i < j < |names| ensures names[i] != names[j] {
      GitPrefixInjective(repos[i].0, repos[j].0);
    }
    forall i | 0 <= i < |repos| ensures '-' in names[i] {
      GitPrefixDash(repos[i].0);
    }
  }

  lemma GitPrefixDash(p: string)
    ensures '-' in "git-" + p
  {
    assert ("git-" + p)[3] == '-';
  }

  lemma GitPrefixInjective(p: string, q: string)
    ensures "git-" + p == "git-" + q ==> p == q
  {
    assert ("git-" + p)[4..] == p;
    assert ("git-" + q)[4..] == q;
  }

  lemma GitRepoPathsDistinct()
    ensures forall i, j :: 0 <= i < j < |GitRepos| ==> GitRepos[i].0 != GitRepos[j].0
  {
  }

  /** The fixed and vendor role names are distinct and have no `-`. */
  lemma PlainRoleNames()
    ensures Distinct(Names(FixedRoles() + VendorRoles(Vendors)))
    ensures forall i :: 0 <= i < 9 ==> '-' !in Names(FixedRoles() + VendorRoles(Vendors))[i]
    ensures |FixedRoles() + VendorRoles(Vendors)| == 9
  {
    NamesAppend(FixedRoles(), VendorRoles(Vendors));
    FixedAndVendorNames();
    PlainNamesDistinct();
    assert ["red", "green", "datasheet", "dokuwiki", "ez", "adi"] + ["xilinx", "intel", "mw"]
        == ["red", "green", "datasheet", "dokuwiki", "ez", "adi", "xilinx", "intel", "mw"];
  }

  lemma FixedAndVendorNames()
    ensures Names(FixedRoles()) == ["red", "green", "datasheet", "dokuwiki", "ez", "adi"]
    ensures Names(VendorRoles(Vendors)) == ["xilinx", "intel", "mw"]
  {
    assert forall i :: 0 <= i < 6 ==> Names(FixedRoles())[i] == FixedRoles()[i].0;
  }

  lemma PlainNamesDistinct()
    ensures var names := ["red", "green", "datasheet", "dokuwiki", "ez", "adi", "xilinx", "intel", "mw"];
      Distinct(names) && forall i :: 0 <= i < 9 ==> '-' !in names[i]
  {
  }

  /** `common_setup` registers 21 roles under distinct names: six fixed
      ones, one per vendor and one per repository. */
  lemma RoleTableDistinct()
    ensures |RoleTable()| == 21
    ensures Distinct(Names(RoleTable()))
  {
    NamesAppend(FixedRoles() + VendorRoles(Vendors), GitRoles(GitRepos));
    PlainRoleNames();
    GitRepoPathsDistinct();
    GitRoleNamesDistinct(GitRepos);
    DistinctAppend(Names(FixedRoles() + VendorRoles(Vendors)), Names(GitRoles(GitRepos)));
  }

  /** Each name is bound to the role registered under it, and the registry
      holds no other name. */
  lemma RolesRegistered()
    ensures Roles().Keys == set i | 0 <= i < |RoleTable()| :: RoleTable()[i].0
    ensures forall i :: 0 <= i < |RoleTable()| ==> Roles()[RoleTable()[i].0] == RoleTable()[i].1
  {
    RoleTableDistinct();
    RegisterDistinct(map[], RoleTable());
  }

  /** Each vendor has a role of its own name. */
  lemma VendorRolesRegistered()
    ensures forall i :: 0 <= i < |Vendors| ==> Vendors[i] in Roles() && Roles()[Vendors[i]] == VendorRole(Vendors[i])
  {
    forall i | 0 <= i < |Vendors| ensures Vendors[i] in Roles() && Roles()[Vendors[i]] == VendorRole(Vendors[i]) {
      RegisteredAt(6 + i);
      RoleTableAt(6 + i);
    }
  }

  /** Each repository has a `git-<url path>` role. */
  lemma GitRolesRegistered()
    ensures forall i :: 0 <= i < |GitRepos| ==>
      "git-" + GitRepos[i].0 in Roles() && Roles()["git-" + GitRepos[i].0] == GitRole(GitRepos[i].0, GitRepos[i].1)
  {
    forall i | 0 <= i < |GitRepos|
      ensures "git-" + GitRepos[i].0 in Roles()
      ensures Roles()["git-" + GitRepos[i].0] == GitRole(GitRepos[i].0, GitRepos[i].1)
    {
      RegisteredAt(9 + i);
      RoleTableAt(9 + i);
    }
  }

  /** The `i`th registration is the one in force for its name. */
  lemma RegisteredAt(i: nat)
    requires i < |RoleTable()|
    ensures RoleTable()[i].0 in Roles() && Roles()[RoleTable()[i].0] == RoleTable()[i].1
  {
    RolesRegistered();
  }

  // ------------------------------------------------------ configuration values

  const DftUrlDokuwiki: string := "https://wiki.analog.com"
  const DftUrlEz: string := "https://ez.analog.com"
  const DftUrlMw: string := "https://www.mathworks.com"
  const DftUrlGitGui: string := GitHubTree + "{repo}" + "/tree"
  const DftUrlGitRaw: string := GitHubRaw + "{repo}"
  const DftUrlAdi: string := "https://www.analog.com"
  const DftUrlXilinx: string := "https://www.xilinx.com"
  const DftUrlIntel: string := "https://www.intel.com"

  /** The eight `add_config_value` calls of `common_setup`: the configuration
      every role reads, when a project sets none of these values. */
  function DefaultConfig(): (c: map<string, string>)
    ensures c.Keys == {"url_dokuwiki", "url_ez", "url_mw", "url_git_gui", "url_git_raw", "url_adi", "url_xilinx", "url_intel"}
  {
    map[
      "url_dokuwiki" := DftUrlDokuwiki,
      "url_ez" := DftUrlEz,
      "url_mw" := DftUrlMw,
      "url_git_gui" := DftUrlGitGui,
      "url_git_raw" := DftUrlGitRaw,
      "url_adi" := DftUrlAdi,
      "url_xilinx" := DftUrlXilinx,
      "url_intel" := DftUrlIntel
    ]
  }

  /** The two GitHub prefixes of the git templates, spelled out a piece at a
      time so that their brace-freedom is checked per piece:
      "https://github.com/analogdevicesinc/" and
      "https://raw.githubusercontent.com/analogdevicesinc/". */
  const GitHubTree: string := "https://" + "github.com/" + "analogdevicesinc/"
  const GitHubRaw: string := "https://" + "raw.githubusercontent.com/" + "analogdevicesinc/"

  lemma HttpsBraceFree() ensures BraceFree("https://") {}
  lemma GitHubHostBraceFree() ensures BraceFree("github.com/") {}
  lemma RawHostBraceFree() ensures BraceFree("raw.githubusercontent.com/") {}
  lemma OrgBraceFree() ensures BraceFree("analogdevicesinc/") {}
  lemma TreeBraceFree() ensures BraceFree("/tree") {}

  /** Brace-freedom of a concatenation. */
  lemma BraceFreeAppend(a: string, b: string)
    requires BraceFree(a) && BraceFree(b)
    ensures BraceFree(a + b)
  {
  }

  /** The brace-free text of the default templates. */
  lemma GitTemplatesBraceFree()
    ensures BraceFree(GitHubTree) && BraceFree("/tree")
    ensures BraceFree(GitHubRaw)
  {
    HttpsBraceFree();
    GitHubHostBraceFree();
    RawHostBraceFree();
    OrgBraceFree();
    TreeBraceFree();
    BraceFreeAppend("https://", "github.com/");
    BraceFreeAppend("https://" + "github.com/", "analogdevicesinc/");
    BraceFreeAppend("https://", "raw.githubusercontent.com/");
    BraceFreeAppend("https://" + "raw.githubusercontent.com/", "analogdevicesinc/");
  }

  /** The default git templates name the repository once, in their `{repo}`
      field. */
  lemma DefaultGitTemplates(repo: string)
    ensures Format(DftUrlGitGui, repo) == Some(GitHubTree + repo + "/tree")
    ensures Format(DftUrlGitRaw, repo) == Some(GitHubRaw + repo)
  {
    GitTemplatesBraceFree();
    FormatOneField(GitHubTree, "/tree", repo);
    FormatOneField(GitHubRaw, "", repo);
    assert GitHubRaw + "{repo}" + "" == DftUrlGitRaw;
    assert GitHubRaw + repo + "" == GitHubRaw + repo;
  }

  /** The configuration keys of the roles that read one are all set by
      default. */
  lemma DefaultConfigKeys()
    ensures "url_dokuwiki" in DefaultConfig() && "url_ez" in DefaultConfig() && "url_adi" in DefaultConfig()
    ensures forall v :: v in Vendors ==> "url_" + v in DefaultConfig()
    ensures "url_git_gui" in DefaultConfig() && "url_git_raw" in DefaultConfig()
  {
    assert "url_" + "xilinx" == "url_xilinx";
    assert "url_" + "intel" == "url_intel";
    assert "url_" + "mw" == "url_mw";
  }

  /** The default configuration holds both git templates, and both format. */
  lemma DefaultGitConfig(repo: string)
    ensures "url_git_gui" in DefaultConfig() && DefaultConfig()["url_git_gui"] == DftUrlGitGui
    ensures "url_git_raw" in DefaultConfig() && DefaultConfig()["url_git_raw"] == DftUrlGitRaw
    ensures Format(DftUrlGitGui, repo).Some? && Format(DftUrlGitRaw, repo).Some?
  {
    DefaultGitTemplates(repo);
  }

  /** The configuration values a role reads are all set (and, for a
      `git` role, both templates format). */
  predicate Configured(role: Role, env: Env) {
    match role
    case ColorRole(_) => true
    case DatasheetRole => true
    case DokuwikiRole => "url_dokuwiki" in env.config
    case EzRole => "url_ez" in env.config
    case AdiRole => "url_adi" in env.config
    case VendorRole(vendorName) => "url_" + vendorName in env.config
    case GitRole(repo, _) =>
      && "url_git_gui" in env.config && Format(env.config["url_git_gui"], repo).Some?
      && "url_git_raw" in env.config && Format(env.config["url_git_raw"], repo).Some?
  }

  /** A role whose configuration values are set never raises. */
  lemma ConfiguredNeverFails(role: Role, env: Env, rawtext: string, text: string)
    requires Configured(role, env)
    ensures Invoke(role, env, rawtext, text).Success?
  {
    if role.GitRole? {
      GitSucceedsWithTemplates(role.repo, role.altName, env, rawtext, text);
    }
  }

  /** The default configuration sets every value a registered role reads. */
  lemma DefaultsConfigured(branches: map<string, string>, i: nat)
    requires i < |RoleTable()|
    ensures Configured(RoleTable()[i].1, Env(DefaultConfig(), branches))
  {
    RoleShapes(i);
    ShapeConfigured(RoleTable()[i].1, branches);
  }

  /** The factories a registered role comes from; a vendor role's name is
      one of the vendors. */
  predicate FactoryRole(role: Role) {
    match role
    case VendorRole(vendorName) => vendorName in Vendors
    case _ => true
  }

  lemma RoleShapes(i: nat)
    requires i < |RoleTable()|
    ensures FactoryRole(RoleTable()[i].1)
  {
    RoleTableAt(i);
    if i < 6 {
      FixedRolesAreFactoryRoles(i);
    } else if i < 9 {
      VendorRoleIsFactoryRole(i - 6);
    }
  }

  lemma VendorRoleIsFactoryRole(k: nat)
    requires k < |Vendors|
    ensures FactoryRole(VendorRole(Vendors[k]))
  {
  }

  lemma FixedRolesAreFactoryRoles(i: nat)
    requires i < |FixedRoles()|
    ensures FactoryRole(FixedRoles()[i].1)
  {
  }

  lemma ShapeConfigured(role: Role, branches: map<string, string>)
    requires FactoryRole(role)
    ensures Configured(role, Env(DefaultConfig(), branches))
  {
    match role
    case GitRole(repo, altName) => DefaultGitConfigured(branches, repo, altName);
    case _ => DefaultConfigKeys();
  }

  /** Where the entries of the role table come from. */
  lemma RoleTableAt(i: nat)
    requires i < |RoleTable()|
    ensures i < 6 ==> RoleTable()[i] == FixedRoles()[i]
    ensures 6 <= i < 9 ==> RoleTable()[i] == (Vendors[i - 6], VendorRole(Vendors[i - 6]))
    ensures 9 <= i ==> RoleTable()[i] == ("git-" + GitRepos[i - 9].0, GitRole(GitRepos[i - 9].0, GitRepos[i - 9].1))
  {
  }

  lemma DefaultGitConfigured(branches: map<string, string>, repo: string, altName: string)
    ensures Configured(GitRole(repo, altName), Env(DefaultConfig(), branches))
  {
    DefaultGitConfig(repo);
  }

  /** With the default configuration no registered role raises, whatever the
      role text and the branch table. */
  lemma DefaultsNeverFail(branches: map<string, string>, rawtext: string, text: string, i: nat)
    requires i < |RoleTable()|
    ensures Invoke(RoleTable()[i].1, Env(DefaultConfig(), branches), rawtext, text).Success?
  {
    DefaultsConfigured(branches, i);
    ConfiguredNeverFails(RoleTable()[i].1, Env(DefaultConfig(), branches), rawtext, text);
  }

  /** The "gui" target of a repository under the default configuration. */
  lemma DefaultGuiUrl(repo: string, branches: map<string, string>, g: GitTarget)
    requires g.kind == "gui"
    ensures GitUrl(Env(DefaultConfig(), branches), repo, g)
            == Success(GitHubTree + repo + "/tree" + "/" + g.branch + "/" + (if g.path == "/" then "" else g.path))
  {
    DefaultGitConfig(repo);
    DefaultGitTemplates(repo);
    GuiUrl(Env(DefaultConfig(), branches), repo, g, GitHubTree + repo + "/tree");
  }

  /** A `git` role, under the default configuration, on text with no
      `<...>`, `+` or `:` (and not "raw" plus one character): a link to the
      path on the repository's default branch on GitHub. */
  lemma GitPlainLinkDefaults(repo: string, altName: string, branches: map<string, string>, rawtext: string, text: string)
    requires !Marked(text) && '+' !in text && ':' !in text
    requires !(|text| == 4 && text[..3] == "raw")
    ensures
      var env := Env(DefaultConfig(), branches);
      Invoke(GitRole(repo, altName), env, rawtext, text)
      == Success(RoleOutput([Reference(rawtext, GitLinkText(altName, text),
                                       GitHubTree + repo + "/tree" + "/" + DefaultBranch(env, repo) + "/"
                                       + (if text == "/" then "" else text),
                                       ["icon", "git"])], []))
  {
    var env := Env(DefaultConfig(), branches);
    GitPlainTarget(DefaultBranch(env, repo), text);
    DefaultGuiUrl(repo, branches, GitTarget("gui", DefaultBranch(env, repo), text));
  }
}
