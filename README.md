# routable: a verified model of the `Route` object

This project models the `Route` object of `index.js` in Dafny. A route takes a URL
path template such as `/foo/:bar` and compiles it into three things: a
regular-expression body (`pattern`), a flags string (`flags`) and the ordered
parameter names (`params`). A native regular expression can stand in for the template.
The route then turns a match result into a parameter object, keeps a registry of
per-parameter parsers, and renders itself as a string.

Modules:

- `Wrappers` (wrappers.dfy): `Option` and `Result`.
- `Fragments` (fragments.dfy): `Split` on `'/'`, as JavaScript's `split('/')` does, and `Join`, its inverse.
- `Template` (template.dfy): the compiler as functions. `Piece` is what one fragment
  appends, `Body` the pieces of all fragments in order, `Anchored` the finished pattern,
  and `Names` the declared parameters. The lemmas say how these behave.
- `Extraction` (extraction.dfy): the three ways `exec` builds its object from a match,
  as functions, with lemmas about the declared-names branch.
- `Routable` (route.dfy): the class `Route`, with the fields `flags`, `url` (the
  source's `_url`), `params`, `parsers`, `pattern` and `version`. It has the setter
  (`SetUrl`, which uses `AdoptRegExp`, `CompilePath` and the loop body `AddFragment`),
  the getter `Url`, `Exec` and its three loops, `Param` and `ToString`. Every method
  is proved against the functions above. `Valid()` is the class invariant: after
  every assignment of the url, the pattern and flags come from it.
- `Scenarios` (scenarios.dfy): routes from the repository's tests (`/foo/:bar`, `/foo/:bar?`), and small routes that show the quirks listed below, worked through the model.

Where the code does something other than its tests or an evident design intent
suggest, the model follows the code:

- Every non-empty fragment is preceded by `\/+`, optional or not. There is no `\/*`.
- An optional fragment is followed by an escaped, literal `\?`. It does not get a `?` quantifier.
  (A string url never reaches the compiler with such a fragment: see `url.parse` under "## Left out".)
- A literal fragment is copied verbatim, including its trailing `?`.
- A string such as `/^body/flags` is compiled like any other template. There is no raw-pattern recognizer.
- Assigning a native regular expression leaves `params` as it was.
- The k-th declared name always reads group k+1 of the match, even when a literal
  fragment, copied verbatim, brings capture groups of its own. So `/(a)/:bar` matched
  on `/a/banana` gives `bar` the decoding of `a` (`Scenarios.LiteralGroupShiftsName`).
- A declared parameter whose group did not take part is not absent or null. The decoder
  gets the text `"undefined"` (JavaScript's string form of `undefined`), and the parameter
  maps to the decoder's answer. A literal fragment's optional group can cause this
  (`/(a)*/:bar` matched on `//banana`, `Scenarios.LiteralGroupUndefined`), and so can a
  declared name that survives the assignment of a regular expression with an optional
  group (`Scenarios.SurvivingNameUndefinedGroup`).
- `exec` never applies the registered parsers. `Exec`'s result is a function of
  `params`, `url` and the match alone.
- `param` accumulates a list of parsers per name and returns nothing.

## Model

| member | source | states |
|---|---|---|
| `Fragments.Split` | index.js:52 | splitting on `/` gives at least one piece, no piece contains `/`, and joining the pieces with `/` gives back the input |
| `Fragments.SplitJoin` | index.js:52 | round trip: splitting the `/`-join of slash-free pieces gives exactly those pieces |
| `Fragments.SplitConcat` | index.js:52 | the pieces of `a + "/" + b` are the pieces of `a` followed by the pieces of `b` |
| `Template.Anchored` | index.js:48-76 | the compiled pattern is at least three characters long, starts with `^` and ends with `$` |
| `Template.RootPatternIff` | index.js:75-76 | the pattern is exactly `^\/$` if and only if every fragment is empty |
| `Template.PieceShape` | index.js:53-55 | a fragment contributes nothing exactly when it is empty; otherwise its piece starts with `\/+` |
| `Template.BodyEmptyIff` | index.js:52-75 | the body is empty if and only if every fragment is empty |
| `Template.BodyStartsWithSeparator` | index.js:55 | a non-empty body starts with `\/+` |
| `Template.BodyConcat` | index.js:52-73 | the body of two fragment lists in sequence is the concatenation of their bodies |
| `Template.NamesConcat` | index.js:57-67 | the names of two fragment lists in sequence are the concatenation of their names |
| `Template.CompileAroundSlash` | index.js:52-73 | the two sides of a `/` compile independently: their bodies and their names concatenate |
| `Template.CompileCollapsesSlashes` | index.js:52-53 | `a//b` compiles to the same pattern and names as `a/b` |
| `Template.CompileIgnoresLeadingSlash` | index.js:52-53 | a leading `/` changes neither the pattern nor the names |
| `Template.CompileIgnoresTrailingSlash` | index.js:52-53 | a trailing `/` changes neither the pattern nor the names |
| `Template.NamesAreNamedFragments` | index.js:57-67 | the k-th name comes from the k-th fragment that starts with `:`, with the `:` and any trailing `?` stripped; names keep fragment order; every named fragment gives exactly one name |
| `Template.ParamNamesSlashFree` | index.js:52-67 | no parameter name contains `/` |
| `Extraction.Extract` | index.js:104-126 | no match gives `false` and only no match does; only declared names can make decoding throw; a template with no names and no engine-reported groups gives an empty object |
| `Extraction.NamedParamsFailure` | index.js:110-113 | declared-name extraction throws if and only if decoding fails for some name whose group exists |
| `Extraction.NamedParamsKeys` | index.js:110-113 | the keys are exactly the names whose 1-based position is below the length of the match result, and each value is a decoded string |
| `Extraction.NamedParamsValue` | index.js:110-113 | a name that no later name repeats maps to `decode` of its group; a later duplicate wins |
| `Extraction.PositionalParamsAt` | index.js:114-119 | for a native regular expression, the keys are exactly the positions `0 .. length-2`, and position i holds group i+1 |
| `Routable.RegExpFlags` | index.js:36-40 | contains `g`, `i`, `m` exactly when the global, ignoreCase, multiline bits are set, no other letter, and always in the order `g`, `i`, `m` |
| `Routable.Route.Blank` | index.js:14-18 | the fields start empty: no flags, an empty url, no params, no parsers, an empty pattern |
| `Routable.Route.New` | index.js:11-22 | a falsy argument (including `''`) fails with "Missing url argument"; a truthy value that is neither a string nor a regular expression fails with the TypeError; otherwise the new route satisfies the invariant, has no parsers and keeps the argument as its url (the pathname of a string, the regular expression itself), so pattern and flags come from it; a regular expression leaves it with no params |
| `Routable.Route.SetUrl` | index.js:30-77 | a string sets `url` to its pathname, and sets `pattern`, `flags = "x"` and `params` from that pathname alone, whatever the earlier state; a regular expression sets `pattern` to its source and `flags` from its bits, leaving `params` alone; any other value fails with the TypeError and changes nothing; parsers are kept |
| `Routable.Route.AdoptRegExp` | index.js:33-42 | the route takes the regular expression's source and flags and changes nothing else |
| `Routable.Route.CompilePath` | index.js:47-76 | the fragment loop leaves exactly the compiled pattern of the pathname, flags `x` and its parameter names |
| `Routable.Route.AddFragment` | index.js:52-73 | one step of the loop appends the fragment's piece and, for a named fragment, its stripped name |
| `Routable.Route.Url` | index.js:26-28 | the getter gives the pathname, or for a regular expression `/` + pattern + `/` + flags |
| `Routable.Route.Exec` | index.js:98-127 | extraction follows declared names first, then a regular expression's positions, then engine-reported group names; the parsers are never consulted |
| `Routable.CollectNamed` | index.js:106-113 | the counter loop over the declared names computes the declared-names extraction, or fails when a decode throws |
| `Routable.CollectPositional` | index.js:114-119 | the loop skipping group 0 stores group i under position i-1 for every later group |
| `Routable.CollectCaptured` | index.js:120-123 | every reported group name maps to the result's property of that name, undefined when absent |
| `Routable.Route.Param` | index.js:134-136 | `parsers[name]` becomes its old list, or the empty list, with `fn` appended; every other key and every other field is unchanged |
| `Routable.Route.ToString` | index.js:143-151 | the string form starts with the url, equals it exactly when no truthy version is set, and otherwise continues with ` (version=<v>)` |
| `Scenarios.SplitOptionalTemplate` | index.js:52 | the string `/foo/:bar?` splits into an empty fragment, `foo` and `:bar?` |
| `Scenarios.FooBarSplit` | index.js:52 | the pathname `/foo/:bar` splits into an empty fragment, `foo` and `:bar` |
| `Scenarios.FooBarNames` | index.js:52-67 | the template `/foo/:bar` declares exactly the parameter `bar` |
| `Scenarios.RegisteredParserIgnored` | test/routable.test.js:79-93 | a route created on `/foo/:bar`, with a parser registered for `bar` and the match `['/foo/banana', 'banana']`, gives `bar = "banana"`: the parser is not applied |
| `Scenarios.SurvivingNameUndefinedGroup` | index.js:33-42 | a route created on `/foo/:bar` and then given a regular expression keeps `bar`; when its group did not take part, `bar` is the decoding of the text `"undefined"` (index.js:112) |
| `Scenarios.LiteralThenBarNames` | index.js:52-69 | a template `/<literal>/:bar`, whose literal has no `/` and does not start with `:`, declares exactly `bar` |
| `Scenarios.LiteralGroupUndefined` | index.js:69 | a route on `/(a)*/:bar` whose literal group did not take part gives `bar` the decoding of the text `"undefined"` (index.js:112) |
| `Scenarios.LiteralGroupShiftsName` | index.js:69 | a route on `/(a)/:bar` matched as `['/a/banana', 'a', 'banana']` gives `bar = "a"`: a declared name reads its position among all groups, literal ones included (index.js:112) |
| `Scenarios.SurplusNamesAbsent` | index.js:112 | names beyond the groups of the match are absent from the result |

## Left out

- Regular-expression compilation and matching (`xRegExp(...)`, `.exec`, `.test`, index.js:88 and index.js:101-102) belong to a third-party engine. `Exec` takes the engine's match result, and the group names it reports, as inputs. So nothing here relates a pattern to the paths it matches. The engine can also refuse a compiled pattern: a literal fragment such as `(` is copied verbatim (index.js:69), so `new Route('/(')` succeeds but every `exec` then throws from `xRegExp(...)` at index.js:101. `Exec`'s `Option<MatchResult>` input cannot express that throw.
- `test` (index.js:86-89): it matches against the `pathname` property of the imported `url` module rather than of its argument, so its result depends only on that foreign module and engine.
- `url.parse(...).pathname` (index.js:47) is Node's URL parser. A string argument comes with its pathname already extracted, and any pathname is accepted. The parser ends the pathname at the first `?` or `#`, turns `\` into `/`, and percent-escapes `'`, `{`, `}`, `|`, `^`, the backtick, `<`, `>`, `"`, space, tab, CR and LF (so the test string `/^\/adfasdfa\/adfasf/gm` reaches the compiler as `/%5E//adfasdfa//adfasf/gm`). Because of the cut at `?`, `new Route('/foo/:bar?')` compiles `/foo/:bar`. No pathname the program produces ends a fragment in `?`, and the results about optional fragments (`Template.Piece`'s `\?` branch, `ParamName`'s stripped `?`, `Scenarios.SplitOptionalTemplate`) hold for pathnames the program never produces. A null pathname, which makes the setter throw after `_url` is assigned, is not modelled.
- `decodeURIComponent` (index.js:112) is an uninterpreted decoder that either yields a text or throws.
- `Route.extend` (index.js:153) is a foreign inheritance helper.
- Object keys: `exec`'s object is a map from `Key`, which is a name or a position. JavaScript turns both into strings, but each object only ever holds one kind, so nothing collides. Names that JavaScript objects inherit (`__proto__`, `toString`, ...) are treated as ordinary keys. Under such a name, `param` in JavaScript would throw, which is not modelled.
- Characters: strings are sequences of Unicode characters, not UTF-16 code units. The compiler only compares the first and last unit against `:` and `?` and splits on `/`, so the results agree.
- Native regular expressions carry only the global, ignoreCase and multiline bits. Other flags (`s`, `u`, `y`, `d`) would appear in the getter's string form and are not modelled.
- `version` is an optional string, and only the empty string counts as falsy. Other JavaScript values assigned to it are not modelled.
