# Reference roles of adi_doctools

This project models, in Dafny, the inline roles that
`adi_doctools/role/common.py` adds to a Sphinx documentation build, and
proves properties of them. A role such as ``:git-hdl:`library/axi_dmac` ``,
``:ez:`/` `` or ``:xilinx:`Datasheet <products/xyz.html>` `` gets its text and
returns a link node, or an inline span. The link's caption and target come
from the text, from a configuration value `url_<name>` that holds a base URL
or a URL template, and, for `git` roles, from the repository's default
branch.

The model has four modules:

- `Wrappers` (`wrappers.dfy`): `Option` and `Result`.
- `PyStr` (`pystr.dfy`): the Python string operations the roles rely on.
  These are `find` and `rfind` of one character, and slicing with negative
  and out-of-range bounds. They also include `strip()` over the characters
  `str.isspace` accepts, and `str.format` with the one keyword argument
  `repo`, including doubled braces.
- `Common` (`common.dfy`): `get_url_config` and `get_outer_inner`, and the
  bodies of the roles `color`, `datasheet`, `dokuwiki`, `ez`, `adi`,
  `vendor` and `git`. It also has `get_default_brach`, and `git` is split
  into its steps: the kind, the branch, the caption and the target.
- `Setup` (`setup.dfy`): `common_setup`. This covers the 21 roles it
  registers and the names they are registered under, the registry that
  results, and the eight default configuration values.

The builder state a role reads is an `Env`, made of two parts:

- The configuration, a map from `url_<name>` to its string value.
- The default branch of each known repository (`lut['repos'][repo]['branch']`).

A role returns a `Result`. `Failure(MissingConfig(key))` stands for the
`AttributeError` that reading a configuration value that was never
registered raises. `Failure(BadTemplate(t))` stands for the exception
`t.format(repo=...)` raises.

Two behaviours of `git` are modelled exactly as the code behaves:

- When the text holds no `+`, `find` returns -1. The code then compares the
  path minus its last character with "raw", and keeps the whole path.
  So `raw1` alone selects the raw URL (`Common.GitRawWithoutPlus`).
- A `:` at the very start of the path selects the default branch, and the
  `:` is dropped (`Common.GitLeadingColon`).

## Model

| member | source | states |
|---|---|---|
| PyStr.Find | adi_doctools/role/common.py:44 | `find` gives the index of the first occurrence, or -1 exactly when the character is absent |
| PyStr.RFind | adi_doctools/role/common.py:73 | `rfind` gives the index of the last occurrence (none follows it), or -1 exactly when the character is absent |
| PyStr.SliceIndex | adi_doctools/role/common.py:46 | a slice bound counts from the end when negative and is clamped to the string |
| PyStr.Slice | adi_doctools/role/common.py:46 | `s[i:j]` in each case the roles use: an in-range slice, crossed bounds are empty, and a negative end counts from the end |
| PyStr.SliceFrom | adi_doctools/role/common.py:117 | `s[i:]` is the suffix from `i`, and empty past the end |
| PyStr.IsSpace | adi_doctools/role/common.py:46 | the whitespace `strip()` removes is the `str.isspace` set, which lies below U+3001 and, among printable ASCII, holds only the space |
| PyStr.Strip | adi_doctools/role/common.py:46 | `strip()` gives the stretch from the first to the last non-space character: what follows it is space, it is empty exactly when all is space, and its ends are not space |
| PyStr.StripFixpoint | adi_doctools/role/common.py:46 | `strip()` leaves exactly the stripped strings unchanged, and is idempotent |
| PyStr.StripTrailingSpace | adi_doctools/role/common.py:46 | stripping a stripped string plus one space gives the string back |
| PyStr.Format | adi_doctools/role/common.py:133 | `format` copies a template without braces unchanged |
| PyStr.FormatLiteralPrefix | adi_doctools/role/common.py:133 | brace-free text before the rest of a template is copied in front of the formatted rest, or the whole fails with the rest |
| PyStr.FormatOneField | adi_doctools/role/common.py:133 | a template with one `{repo}` field between brace-free text yields that text with `repo` in the field's place |
| PyStr.FormatDefinedIff | adi_doctools/role/common.py:133 | `format` succeeds exactly on the well-formed templates: characters other than braces, doubled braces and `{repo}` fields |
| PyStr.FormatRejectsLoneClose | adi_doctools/role/common.py:133 | a `}` that is not doubled makes `format` raise |
| PyStr.FormatRejectsLoneOpen | adi_doctools/role/common.py:133 | a `{` that is neither doubled nor the start of `{repo}` makes `format` raise: an unclosed `{`, `{}` or a field with another name |
| PyStr.FormatEscaped | adi_doctools/role/common.py:133 | `format` turns doubled braces back into single ones: it inverts brace escaping for every string and every `repo` |
| Common.GetUrlConfig | adi_doctools/role/common.py:35-37 | reading `url_<name>` succeeds exactly when it is set and gives its value, else fails naming the key |
| Common.OuterPart | adi_doctools/role/common.py:44-46 | the outer part is the prefix before the first `<` and holds no `<` |
| Common.InnerPart | adi_doctools/role/common.py:46 | marked text is the outer part, `<`, the inner part and `>` |
| Common.GetOuterInner | adi_doctools/role/common.py:40-48 | text holding a `<` and ending in `>` splits into its stripped outer part and its inner part; any other text, the empty one included, has no outer part and is kept whole |
| Common.OuterInnerRoundTrip | adi_doctools/role/common.py:40-48 | splitting `outer <inner>` gives back `outer` and `inner`, for any stripped `outer` without `<` |
| Common.DefaultLinkText | adi_doctools/role/common.py:73 | the default caption is the suffix of the path after its last `/` and has no `/` |
| Common.Color | adi_doctools/role/common.py:51-56 | one inline span holding the text with the class, and no messages |
| Common.Datasheet | adi_doctools/role/common.py:59-66 | no nodes and no messages |
| Common.Dokuwiki | adi_doctools/role/common.py:69-78 | fails exactly when `url_dokuwiki` is unset; otherwise a link to `<url_dokuwiki>/<path>` captioned with the outer text or the last path segment |
| Common.Ez | adi_doctools/role/common.py:81-93 | fails exactly when `url_ez` is unset; otherwise a link to `<url_ez>/<path>`, where a path of `/` becomes empty, captioned with the outer text or "EngineerZone", with classes icon and ez |
| Common.Adi | adi_doctools/role/common.py:142-152 | fails exactly when `url_adi` is unset; otherwise a link to `<url_adi>/<id>`, captioned with the outer text or the id, with classes icon and adi |
| Common.Vendor | adi_doctools/role/common.py:155-164 | fails exactly when `url_<vendor>` is unset; otherwise a link to `<url_<vendor>>/<path>` captioned with the outer text or the last path segment |
| Common.DefaultBranch | adi_doctools/role/common.py:96-105 | the branch recorded for the repository, or "main" when none is |
| Common.SplitKind | adi_doctools/role/common.py:112-117 | the kind is "raw" or "gui"; with a `+` the rest follows the first `+`, and the kind is raw exactly when the text before it is "raw"; with no `+` the path is kept whole, and the kind is raw exactly when the path is "raw" plus one character |
| Common.DropLastIsRaw | adi_doctools/role/common.py:113 | the path minus its last character is "raw" exactly when the path is "raw" plus one character |
| Common.KindRestIsSuffix | adi_doctools/role/common.py:117 | what the kind step leaves is a suffix of its input |
| Common.SplitBranch | adi_doctools/role/common.py:119-124 | without `:` the default branch and the whole path; with a leading `:` the default branch and the path minus the `:`; otherwise the path is a non-empty branch without `:`, then `:`, then the rest |
| Common.BranchRestIsSuffix | adi_doctools/role/common.py:124 | what the branch step leaves is a suffix of its input |
| Common.ParseGitPath | adi_doctools/role/common.py:112-124 | the kind step then the branch step: the kind of a link is always "raw" or "gui" |
| Common.GitPathIsSuffix | adi_doctools/role/common.py:112-124 | the path of a link is a suffix of the role text |
| Common.GitLinkText | adi_doctools/role/common.py:125-129 | the caption is the path exactly when the path is not `/`; for `/` it is "ADI ", the repository's name, " repository" |
| Common.FormatUrl | adi_doctools/role/common.py:133 | formatting a template succeeds exactly when it is well formed, gives the formatted text, and otherwise fails naming the template |
| Common.GitUrl | adi_doctools/role/common.py:130-134 | succeeds exactly when `url_git_<kind>` is set and formats, failing with the missing key or the rejected template; the target is the formatted template, `/`, the branch, `/` and the path, where a path of `/` becomes empty |
| Common.Git | adi_doctools/role/common.py:108-139 | succeeds exactly when its target can be built and fails with that error; the link points there, is captioned with the outer text, or else the path, or else the repository's name for a path of `/`, and has classes icon and git |
| Common.GitExplicitTarget | adi_doctools/role/common.py:112-124 | `kind+branch:path` links to exactly that branch and path, with the raw URL exactly when the kind is "raw" |
| Common.KindBeforePlus | adi_doctools/role/common.py:112-117 | the kind is read from the text before the first `+`, and the rest follows it |
| Common.BranchBeforeColon | adi_doctools/role/common.py:119-124 | a non-empty branch without `:`, then `:`, selects that branch and leaves the rest |
| Common.GitPlainTarget | adi_doctools/role/common.py:112-124 | text without `+` or `:` (and not "raw" plus one character) is a path on the default branch with the gui URL |
| Common.GitRawWithoutPlus | adi_doctools/role/common.py:112-117 | "raw" plus one character other than `+` or `:` selects the raw URL with no `+`, and keeps the whole text as the path |
| Common.GitLeadingColon | adi_doctools/role/common.py:119-124 | a leading `:` selects the default branch and is dropped |
| Common.GitUrlSucceeds | adi_doctools/role/common.py:133-134 | a target is built whenever both templates are set and format |
| Common.GitSucceedsWithTemplates | adi_doctools/role/common.py:108-139 | a git role never fails when both templates are set and format |
| Common.GuiUrl | adi_doctools/role/common.py:133-134 | the gui target is the formatted gui template, then the branch, then the path |
| Setup.Invoke | adi_doctools/role/common.py:51-164 | calling a role: colour and datasheet roles never fail, only a git role can fail other than on a missing value, and a missing value is one the configuration does not hold |
| Setup.FixedRoles | adi_doctools/role/common.py:168-173 | six roles are registered before the loops, none of them a vendor or git role, and each colour role is named after its class |
| Setup.RoleTable | adi_doctools/role/common.py:167-177 | `common_setup` registers the six fixed roles, one role per vendor and one per repository: 21 in all |
| Setup.Register | adi_doctools/role/common.py:168-177 | registering roles adds exactly their names to the registry, and the final entry's name is bound to its role |
| Setup.RegisterLast | adi_doctools/role/common.py:168-177 | for every entry that no later entry shares its name with, that name is bound to its role: the last registration of a name is the one in force |
| Setup.RegisterLastAt | adi_doctools/role/common.py:168-177 | one entry with no later entry of the same name is the binding in force for its name |
| Setup.Roles | adi_doctools/role/common.py:167-177 | the registry after `common_setup` holds exactly the names of the role table |
| Setup.VendorRoles | adi_doctools/role/common.py:174-175 | the vendor loop registers, in order, one vendor role under each vendor's own name |
| Setup.GitRoles | adi_doctools/role/common.py:176-177 | the repository loop registers, in order, a git role under `git-<url path>` for each repository, capturing its path and name |
| Setup.RegisterKeeps | adi_doctools/role/common.py:168-177 | registering roles leaves every name they do not use bound as before |
| Setup.RegisterLookup | adi_doctools/role/common.py:168-177 | with distinct names, each name is bound to its own role |
| Setup.RegisterDistinct | adi_doctools/role/common.py:168-177 | registering roles under distinct names binds each name to its own role, adds no other name and keeps every other earlier binding |
| Setup.RoleTableDistinct | adi_doctools/role/common.py:167-177 | `common_setup` registers 21 roles, under distinct names |
| Setup.FixedAndVendorNames | adi_doctools/role/common.py:168-175 | the roles before the git loop are named red, green, datasheet, dokuwiki, ez, adi, then xilinx, intel and mw |
| Setup.PlainRoleNames | adi_doctools/role/common.py:168-175 | the nine fixed and vendor names are distinct and hold no `-` |
| Setup.GitRoleNamesDistinct | adi_doctools/role/common.py:176-177 | `git-` names of distinct paths are distinct, and all hold a `-` |
| Setup.RolesRegistered | adi_doctools/role/common.py:167-177 | the registry holds exactly the 21 names, each bound to the role registered under it |
| Setup.RegisteredAt | adi_doctools/role/common.py:167-177 | each registration is the one in force for its name |
| Setup.RoleTableAt | adi_doctools/role/common.py:167-177 | the order of the registrations: six fixed roles, then the vendors, then the repositories |
| Setup.VendorRolesRegistered | adi_doctools/role/common.py:174-175 | each vendor's name is bound to its vendor role |
| Setup.GitRolesRegistered | adi_doctools/role/common.py:176-177 | each `git-<url path>` name is bound to the git role of that repository and name |
| Setup.GitTemplatesBraceFree | adi_doctools/role/common.py:11-12 | the text around the field of the default git templates has no braces |
| Setup.DefaultGitTemplates | adi_doctools/role/common.py:11-12 | the default git templates format to the GitHub tree and raw URLs of the repository |
| Setup.DefaultConfig | adi_doctools/role/common.py:179-186 | the defaults set exactly the eight keys `url_dokuwiki`, `url_ez`, `url_mw`, `url_git_gui`, `url_git_raw`, `url_adi`, `url_xilinx` and `url_intel` |
| Setup.DefaultConfigKeys | adi_doctools/role/common.py:179-186 | the defaults set `url_dokuwiki`, `url_ez`, `url_adi`, each vendor's value and both git templates |
| Setup.DefaultGitConfig | adi_doctools/role/common.py:182-183 | the defaults hold both git templates, and both format for any repository |
| Setup.ConfiguredNeverFails | adi_doctools/role/common.py:35-164 | a role whose configuration values are set, and whose templates format, never raises |
| Setup.RoleShapes | adi_doctools/role/common.py:167-177 | every registered role comes from a factory of `common_setup`, and a vendor role's name is one of the vendors |
| Setup.ShapeConfigured | adi_doctools/role/common.py:179-186 | under the defaults every such role finds the values it reads |
| Setup.DefaultsConfigured | adi_doctools/role/common.py:167-186 | the default configuration sets every value a registered role reads |
| Setup.DefaultsNeverFail | adi_doctools/role/common.py:167-186 | under the default configuration no registered role raises, whatever its text and the branch table |
| Setup.DefaultGuiUrl | adi_doctools/role/common.py:130-134 | under the defaults a gui target is `https://github.com/analogdevicesinc/<repo>/tree/<branch>/<path>` |
| Setup.GitPlainLinkDefaults | adi_doctools/role/common.py:108-139 | under the defaults, plain text links to that path on the default branch on GitHub, captioned with the path or the repository's name |

The constants `Setup.GitRepos`, `Setup.Vendors` and `Setup.DftUrl*` hold the
values of `common.py:8-32`. `GitHubTree` and `GitHubRaw` spell the two GitHub
prefixes as a few concatenated pieces, so that the verifier checks each
piece's freedom from braces on its own.

## Left out

- Docutils node construction, the `options` keyword arguments the roles pass on to the node, and the unused role parameters `name`, `lineno`, `inliner` apart from its configuration, and `content`: a node is a datatype value.
- The `logger.info` message of `datasheet`, because it is I/O. The model returns the same empty lists.
- Sphinx's `add_role`: registration is a fold over a map, in which a later registration of a name replaces an earlier one. Sphinx's warning when that happens is not modelled. The names are proved distinct, so it never happens here.
- Sphinx's `add_config_value`: the defaults are one map literal. Sphinx raises on a name registered twice; the eight names of `common_setup` are all different, so that error cannot arise here. The `'env'` rebuild flag of the configuration values is not modelled.
- Configuration values of a type other than string, and values a project sets to something else: the configuration is any map of strings, so every lemma whose statement does not mention `DefaultConfig()` holds for every project configuration.
- The `lut` structure beyond `lut['repos'][repo]['branch']`, which is a map from repository to branch. A repository entry without a `branch` key, which raises in the source, is not modelled.
- PyStr.Format: templates must use doubled braces and `{repo}` only. A conversion (`{repo!r}`), a format specification (`{repo:>10}`) or an attribute or index access (`{repo.upper}`, `{repo[0]}`) is accepted by Python but makes the model fail with `BadTemplate`. The default templates use none of these.
- PyStr.Strip: strings are sequences of code points. Lone surrogates and Python's Unicode database beyond the `isspace` set are not modelled.
- `dokuwiki` is modelled as `vendor` with the name "dokuwiki": both bodies in the source are the same code.
- The rest of the repository is not part of this model. That covers the other roles and directives, `author_mode.py`, the HDL generation code, and the build, serve and test scripts.
