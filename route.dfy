/**
 * The `Route` object (index.js): its fields, the `url` setter that compiles a
 * path template or adopts a native regular expression, parameter extraction,
 * the parser registry and the string form.
 */
module Routable {
  import opened Wrappers
  import opened Fragments
  import opened Template
  import opened Extraction

  /** What the route keeps as its url: a pathname, or a native regular expression. */
  datatype Url =
    | Path(pathname: string)
    | Re(source: string, global: bool, ignoreCase: bool, multiline: bool)

  /**
   * A value assigned to `url`: a native regular expression, a string (with the
   * pathname the URL parser finds in it), or any other JavaScript value, of which
   * only its truthiness matters.
   */
  datatype UrlArg =
    | RegExpArg(source: string, global: bool, ignoreCase: bool, multiline: bool)
    | StringArg(text: string, pathname: string)
    | OtherArg(truthy: bool)

  /** JavaScript truthiness of the argument: a regular expression always, a string when non-empty. */
  predicate Truthy(arg: UrlArg)
  {
    match arg
    case RegExpArg(_, _, _, _) => true
    case StringArg(text, _) => text != ""
    case OtherArg(truthy) => truthy
  }

  /** The two errors a route throws: "Missing url argument", and the TypeError "url must be a String". */
  datatype RouteError = MissingUrl | UrlNotString

  /** A parameter parser: (value, url, parameter name) to a new value. */
  type Parser = (string, string, string) -> string

  /** The position of a flag letter in the order `g`, `i`, `m`. */
  function FlagRank(c: char): nat
  {
    if c == 'g' then 0 else if c == 'i' then 1 else 2
  }

  /** The flags of a native regular expression: `g`, `i`, `m` for the bits that are set, in that order. */
  function RegExpFlags(global: bool, ignoreCase: bool, multiline: bool): (r: string)
    ensures ('g' in r <==> global) && ('i' in r <==> ignoreCase) && ('m' in r <==> multiline)
    ensures forall k :: 0 <= k < |r| ==> r[k] in "gim"
    ensures forall a, b :: 0 <= a < b < |r| ==> FlagRank(r[a]) < FlagRank(r[b])
  {
    (if global then "g" else "") + (if ignoreCase then "i" else "") + (if multiline then "m" else "")
  }

  class Route {
    /** Regular expression flags. */
    var flags: string
    /** The url as last set (`_url`). */
    var url: Url
    /** Parameter names from the url. */
    var params: seq<string>
    /** Registered parameter parsers, per name. */
    var parsers: map<string, seq<Parser>>
    /** The regular expression body. */
    var pattern: string
    /** Version metadata assigned from outside; `None` when unset. */
    var version: Option<string>

    /**
     * After every assignment of the url, the pattern and flags come from it: compiled
     * from a pathname (which also fixes `params`), or copied from a regular expression.
     */
    ghost predicate Valid()
      reads this
    {
      match url
      case Path(p) => pattern == CompiledPattern(p) && flags == "x" && params == ParamNames(p)
      case Re(src, g, i, m) => pattern == src && flags == RegExpFlags(g, i, m)
    }

    /** The fields before the url is first assigned (index.js:14-18). */
    constructor Blank()
      ensures flags == "" && url == Path("") && params == [] && parsers == map[] && pattern == ""
      ensures version == None
    {
      flags := "";
      url := Path("");
      params := [];
      parsers := map[];
      pattern := "";
      version := None;
    }

    /** `new Route(url)`: refuses a falsy argument, then assigns the url. */
    static method New(arg: UrlArg) returns (r: Result<Route, RouteError>)
      ensures !Truthy(arg) ==> r == Failure(MissingUrl)
      ensures Truthy(arg) && arg.OtherArg? ==> r == Failure(UrlNotString)
      ensures Truthy(arg) && !arg.OtherArg? ==> r.Success?
      ensures r.Success? ==> fresh(r.value) && r.value.Valid()
      ensures r.Success? ==> r.value.parsers == map[] && r.value.version == None
      ensures r.Success? && arg.RegExpArg? ==>
                r.value.url == Re(arg.source, arg.global, arg.ignoreCase, arg.multiline) && r.value.params == []
      ensures r.Success? && arg.StringArg? ==> r.value.url == Path(arg.pathname)
    {
      if !Truthy(arg) {
        return Failure(MissingUrl);
      }
      var route := new Route.Blank();
      var err := route.SetUrl(arg);
      if err.Some? {
        return Failure(err.value);
      }
      return Success(route);
    }

    /**
     * The `url` setter. A regular expression is adopted as it is, leaving `params`
     * alone; a string's pathname is compiled fragment by fragment; anything else
     * throws before a field changes.
     */
    method SetUrl(arg: UrlArg) returns (err: Option<RouteError>)
      modifies this
      ensures arg.OtherArg? ==> err == Some(UrlNotString) && unchanged(this)
      ensures !arg.OtherArg? ==> err == None && Valid()
      ensures arg.RegExpArg? ==>
                url == Re(arg.source, arg.global, arg.ignoreCase, arg.multiline)
                && pattern == arg.source
                && flags == RegExpFlags(arg.global, arg.ignoreCase, arg.multiline)
                && params == old(params)
      ensures arg.StringArg? ==>
                url == Path(arg.pathname)
                && pattern == CompiledPattern(arg.pathname)
                && flags == "x"
                && params == ParamNames(arg.pathname)
      ensures parsers == old(parsers) && version == old(version)
    {
      match arg
      case RegExpArg(source, global, ignoreCase, multiline) =>
        AdoptRegExp(source, global, ignoreCase, multiline);
        return None;
      case OtherArg(_) =>
        return Some(UrlNotString);
      case StringArg(_, pathname) =>
        CompilePath(pathname);
        return None;
    }

    /** The setter on a native regular expression: its source and flags, `params` untouched. */
    method AdoptRegExp(source: string, global: bool, ignoreCase: bool, multiline: bool)
      modifies this`url, this`pattern, this`flags
      ensures url == Re(source, global, ignoreCase, multiline) && Valid()
      ensures pattern == source && flags == RegExpFlags(global, ignoreCase, multiline)
    {
      url := Re(source, global, ignoreCase, multiline);
      pattern := source;
      flags := "";
      if global { flags := flags + "g"; }
      if ignoreCase { flags := flags + "i"; }
      if multiline { flags := flags + "m"; }
    }

    /** The setter on a string: compiles its pathname fragment by fragment. */
    method CompilePath(pathname: string)
      modifies this`url, this`pattern, this`flags, this`params
      ensures url == Path(pathname) && Valid()
      ensures pattern == CompiledPattern(pathname) && flags == "x" && params == ParamNames(pathname)
    {
      url := Path(pathname);
      pattern := "^";
      flags := "x";
      params := [];
      var fragments := Split(url.pathname);
      var k := 0;
      while k < |fragments|
        invariant 0 <= k <= |fragments|
        invariant url == Path(pathname) && flags == "x"
        invariant pattern == "^" + Body(fragments[..k])
        invariant params == Names(fragments[..k])
      {
        ghost var before, paramsBefore := pattern, params;
        AddFragment(fragments[k]);
        BodyStep(fragments, k, before, pattern);
        NamesStep(fragments, k, paramsBefore, params);
        k := k + 1;
      }
      assert fragments[..k] == fragments;
      FinishPattern(fragments, pattern);
      if pattern == "^" {
        pattern := pattern + RootSeparator;
      }
      pattern := pattern + "$";
    }

    /** The loop body of the setter: appends one fragment's piece, and its name when it is named. */
    method AddFragment(fragment: string)
      modifies this`pattern, this`params
      ensures pattern == old(pattern) + Piece(fragment)
      ensures params == old(params) + (if IsNamed(fragment) then [ParamName(fragment)] else [])
    {
      if |fragment| == 0 {
        return;
      }
      pattern := pattern + Separator;
      var named := fragment[0] == ':';
      var optional := fragment[|fragment| - 1] == '?';
      if named {
        pattern := pattern + NamedGroup;
        assert fragment[1..if optional then |fragment| - 1 else |fragment|] == ParamName(fragment);
        params := params + [fragment[1..if optional then |fragment| - 1 else |fragment|]];
      } else {
        pattern := pattern + fragment;
      }
      if optional {
        pattern := pattern + OptionalMark;
      }
      AppendedPiece(old(pattern), pattern, fragment);
    }

    /** The `url` getter: the pathname, or the regular expression written as `/source/flags`. */
    function Url(): (s: string)
      reads this
      ensures url.Path? ==> s == url.pathname
      ensures url.Re? && Valid() ==> s == "/" + pattern + "/" + flags
    {
      match url
      case Path(p) => p
      case Re(src, g, i, m) => "/" + src + "/" + RegExpFlags(g, i, m)
    }

    /**
     * Parameter extraction of `exec`, given what the engine answered for the
     * path (`m`) and the group names it reports. The registered parsers are not applied.
     */
    method Exec(m: Option<MatchResult>, decode: Decoder, captureNames: Option<seq<string>>) returns (r: ExecResult)
      ensures r == Extract(params, url.Re?, m, decode, captureNames)
    {
      if m.None? {
        return NoMatch;
      }
      if |params| > 0 {
        var named := CollectNamed(params, m.value.groups, decode);
        return if named.None? then DecodeFailure else Matched(named.value);
      } else if url.Re? {
        var positional := CollectPositional(m.value.groups);
        return Matched(positional);
      } else if captureNames.Some? {
        var captured := CollectCaptured(captureNames.value, m.value.named);
        return Matched(captured);
      }
      return Matched(map[]);
    }

    /** `param(name, fn)`: appends `fn` to the parsers registered under `name`. */
    method Param(name: string, fn: Parser)
      modifies this`parsers
      ensures parsers == old(parsers)[name := (if name in old(parsers) then old(parsers)[name] else []) + [fn]]
      ensures old(Valid()) ==> Valid()
    {
      var list := if name in parsers then parsers[name] else [];
      parsers := parsers[name := list + [fn]];
    }

    /** True when version metadata is set to a truthy value. */
    predicate HasVersion()
      reads this
    {
      version.Some? && version.value != ""
    }

    /** The string form: the url, followed by the version in parentheses when one is set. */
    function ToString(): (s: string)
      reads this
      ensures |Url()| <= |s| && s[..|Url()|] == Url()
      ensures s == Url() <==> !HasVersion()
      ensures HasVersion() ==> s[|Url()|..] == " (version=" + version.value + ")"
    {
      Url() + (if HasVersion() then " (version=" + version.value + ")" else "")
    }
  }

  /**
   * The declared-names loop of `exec`: a counter runs ahead of the names, and each
   * name whose group exists gets that group decoded; `None` when decoding throws.
   */
  method CollectNamed(names: seq<string>, groups: seq<Option<string>>, decode: Decoder)
    returns (r: Option<map<Key, Option<string>>>)
    ensures r == NamedParams(names, groups, decode)
  {
    var out: map<Key, Option<string>> := map[];
    var i := 0;
    var k := 0;
    while k < |names|
      invariant 0 <= k <= |names| && i == k
      invariant NamedParams(names[..k], groups, decode) == Some(out)
    {
      var p := names[k];
      assert names[..k + 1][..k] == names[..k];
      i := i + 1;
      if i < |groups| {
        var d := decode(ArgumentText(groups[i]));
        if d.URIError? {
          NamedParamsFailure(names[..k + 1], groups, decode);
          FailsAtPrefix(names, k + 1, groups, decode, k);
          NamedParamsFailure(names, groups, decode);
          return None;
        }
        out := out[Name(p) := Some(d.text)];
      }
      k := k + 1;
    }
    assert names[..k] == names;
    return Some(out);
  }

  /** The native-regular-expression loop of `exec`: every group after the whole match, one position lower. */
  method CollectPositional(groups: seq<Option<string>>) returns (out: map<Key, Option<string>>)
    ensures out == PositionalParams(groups)
  {
    out := map[];
    var i := 0;
    while i < |groups|
      invariant 0 <= i <= |groups|
      invariant out == map j: nat | j + 1 < i :: Index(j) := groups[j + 1]
    {
      if i != 0 {
        out := out[Index(i - 1) := groups[i]];
      }
      i := i + 1;
    }
  }

  /** The named-group loop of `exec`: each reported name gets its property of the result. */
  method CollectCaptured(names: seq<string>, named: map<string, Option<string>>) returns (out: map<Key, Option<string>>)
    ensures out == CapturedParams(names, named)
  {
    out := map[];
    var k := 0;
    while k < |names|
      invariant 0 <= k <= |names|
      invariant out == map n | n in names[..k] :: Name(n) := Lookup(named, n)
    {
      assert names[..k + 1] == names[..k] + [names[k]];
      out := out[Name(names[k]) := Lookup(named, names[k])];
      k := k + 1;
    }
    assert names[..k] == names;
  }

  /** The pattern after one step of the compiling loop is the pattern before it plus the fragment's piece. */
  lemma AppendedPiece(before: string, after: string, fragment: string)
    requires fragment == "" ==> after == before
    requires fragment != "" ==>
      after == before + Separator + (if fragment[0] == ':' then NamedGroup else fragment)
                      + (if fragment[|fragment| - 1] == '?' then OptionalMark else "")
    ensures after == before + Piece(fragment)
  {
    if fragment != "" {
      var x := if IsNamed(fragment) then NamedGroup else fragment;
      var y := if IsOptional(fragment) then OptionalMark else "";
      ConcatAssoc(before, Separator, x);
      ConcatAssoc(before, Separator + x, y);
    }
  }

  /** A decode failure before position `j` is one of the whole list too. */
  lemma FailsAtPrefix(names: seq<string>, j: nat, groups: seq<Option<string>>, decode: Decoder, k: int)
    requires j <= |names| && FailsAt(names[..j], groups, decode, k)
    ensures FailsAt(names, groups, decode, k)
  {
  }
}
