/**
 * Concrete routes worked out through the model: routes from the repository's
 * tests (`/foo/:bar`, `/foo/:bar?`), and small routes that show how the code
 * treats literal groups, surviving names and surplus names.
 */
module Scenarios {
  import opened Wrappers
  import opened Fragments
  import opened Template
  import opened Extraction
  import opened Routable

  /**
   * The split of the string `/foo/:bar?`: an empty fragment, a literal and an
   * optional named fragment. The setter never splits this string when it is given
   * as a url, since the URL parser ends the pathname at the `?`.
   */
  lemma SplitOptionalTemplate()
    ensures Split("/foo/:bar?") == ["", "foo", ":bar?"]
  {
    assert "/foo/:bar?" == "" + "/" + ("foo" + "/" + ":bar?");
    SplitAfterPiece("", "foo" + "/" + ":bar?");
    SplitAfterPiece("foo", ":bar?");
    SplitSlashFree(":bar?");
  }

  /** The template `/foo/:bar` splits into an empty fragment, a literal and a named fragment. */
  lemma FooBarSplit()
    ensures Split("/foo/:bar") == ["", "foo", ":bar"]
  {
    assert "/foo/:bar" == "" + "/" + ("foo" + "/" + ":bar");
    SplitAfterPiece("", "foo" + "/" + ":bar");
    SplitAfterPiece("foo", ":bar");
    SplitSlashFree(":bar");
  }

  /** The template `/foo/:bar` declares the single parameter `bar`. */
  lemma FooBarNames()
    ensures ParamNames("/foo/:bar") == ["bar"]
  {
    FooBarSplit();
    var fragments := ["", "foo", ":bar"];
    assert ParamName(":bar") == "bar";
    assert Names(fragments[..1]) == [] by {
      assert fragments[..1][..0] == [];
    }
    assert Names(fragments[..2]) == [] by {
      assert fragments[..2][..1] == fragments[..1];
    }
    assert fragments[..3][..2] == fragments[..2];
    assert fragments[..3] == fragments;
  }

  /**
   * A route on `/foo/:bar` with a parser registered for `bar`, matched against
   * `/foo/banana`: `bar` is the decoded group, and the parser plays no part.
   */
  method RegisteredParserIgnored(decode: Decoder, fn: Parser) returns (res: ExecResult)
    requires decode("banana") == Decoded("banana")
    ensures res == Matched(map[Name("bar") := Some("banana")])
  {
    FooBarNames();
    var created := Route.New(StringArg("/foo/:bar", "/foo/:bar"));
    var route := created.value;
    route.Param("bar", fn);
    assert route.params == ["bar"] && ["bar"][..0] == [];
    res := route.Exec(Some(MatchResult([Some("/foo/banana"), Some("banana")], map[])), decode, None);
  }

  /**
   * A route on `/foo/:bar` whose url is then set to a regular expression with an
   * optional group, such as `^\/foo(?:\/(\w+))?$`, keeps `bar` as its declared
   * name. When the engine reports that group as not taking part (matching `/foo`),
   * the decoder is handed the text "undefined" and `bar` maps to what it returns.
   */
  method SurvivingNameUndefinedGroup(decode: Decoder, text: string) returns (res: ExecResult)
    requires decode("undefined") == Decoded(text)
    ensures res == Matched(map[Name("bar") := Some(text)])
  {
    FooBarNames();
    var created := Route.New(StringArg("/foo/:bar", "/foo/:bar"));
    var route := created.value;
    var _ := route.SetUrl(RegExpArg("^\\/foo(?:\\/(\\w+))?$", false, false, false));
    assert route.params == ["bar"] && ["bar"][..0] == [];
    res := route.Exec(Some(MatchResult([Some("/foo"), None], map[])), decode, None);
  }

  /** A template `/<literal>/:bar` whose literal holds no `/` and does not start with `:` declares only `bar`. */
  lemma LiteralThenBarNames(literal: string)
    requires '/' !in literal && !IsNamed(literal)
    ensures ParamNames("/" + literal + "/:bar") == ["bar"]
  {
    assert "/" + literal + "/:bar" == "" + "/" + (literal + "/" + ":bar");
    SplitAfterPiece("", literal + "/" + ":bar");
    SplitAfterPiece(literal, ":bar");
    SplitSlashFree(":bar");
    var fragments := ["", literal, ":bar"];
    assert Split("/" + literal + "/:bar") == fragments;
    assert ParamName(":bar") == "bar";
    assert Names(fragments[..1]) == [] by {
      assert fragments[..1][..0] == [];
    }
    assert Names(fragments[..2]) == [] by {
      assert fragments[..2][..1] == fragments[..1];
    }
    assert fragments[..3][..2] == fragments[..2];
    assert fragments[..3] == fragments;
  }

  /**
   * A literal fragment is copied into the pattern as it is, groups included, yet
   * the first declared name still reads group 1. The template `/(a)*` + `/:bar` compiles to
   * `^\/+(a)*\/+([a-zA-Z0-9-_~\.%]+)$`; matching `//banana`, the engine reports
   * the literal's group as not taking part, so `bar` is the decoding of "undefined".
   */
  method LiteralGroupUndefined(decode: Decoder, text: string) returns (res: ExecResult)
    requires decode("undefined") == Decoded(text)
    ensures res == Matched(map[Name("bar") := Some(text)])
  {
    LiteralThenBarNames("(a)*");
    assert "/" + "(a)*" + "/:bar" == "/(a)*/:bar";
    var created := Route.New(StringArg("/(a)*/:bar", "/(a)*/:bar"));
    var route := created.value;
    assert route.params == ["bar"] && ["bar"][..0] == [];
    res := route.Exec(Some(MatchResult([Some("//banana"), None, Some("banana")], map[])), decode, None);
  }

  /**
   * The same shift with a group that takes part: `/(a)/:bar` matching `/a/banana`
   * gives `bar` the decoding of "a", the literal's own group, not of "banana".
   */
  method LiteralGroupShiftsName(decode: Decoder) returns (res: ExecResult)
    requires decode("a") == Decoded("a")
    ensures res == Matched(map[Name("bar") := Some("a")])
  {
    LiteralThenBarNames("(a)");
    assert "/" + "(a)" + "/:bar" == "/(a)/:bar";
    var created := Route.New(StringArg("/(a)/:bar", "/(a)/:bar"));
    var route := created.value;
    assert route.params == ["bar"] && ["bar"][..0] == [];
    res := route.Exec(Some(MatchResult([Some("/a/banana"), Some("a"), Some("banana")], map[])), decode, None);
  }

  /** More names than groups: the names without a group are absent. */
  lemma SurplusNamesAbsent(decode: Decoder)
    requires decode("1") == Decoded("1")
    ensures Extract(["a", "b"], false, Some(MatchResult([Some("/1"), Some("1")], map[])), decode, None)
            == Matched(map[Name("a") := Some("1")])
  {
    assert ["a", "b"][..1] == ["a"] && ["a"][..0] == [];
  }
}
