/**
 * The path-template compiler of a route, stated as functions: what the `url`
 * setter leaves in `pattern` and `params` after walking the '/'-separated
 * fragments of a pathname (index.js:47-76).
 */
module Template {
  import opened Fragments

  /** Appended before every non-empty fragment: one or more slashes. */
  const Separator := "\\/+"
  /** The capture group that stands for a named fragment. */
  const NamedGroup := "([a-zA-Z0-9-_~\\.%]+)"
  /** Appended after an optional fragment: an escaped, literal question mark. */
  const OptionalMark := "\\?"
  /** What a pathname without non-empty fragments matches: a single slash. */
  const RootSeparator := "\\/"

  /** The pattern of a pathname with no non-empty fragment. */
  const RootPattern := "^\\/$"

  /** A fragment that starts with ':' declares a parameter. */
  predicate IsNamed(fragment: string)
  {
    |fragment| > 0 && fragment[0] == ':'
  }

  /** A fragment that ends with '?' is optional. */
  predicate IsOptional(fragment: string)
  {
    |fragment| > 0 && fragment[|fragment| - 1] == '?'
  }

  /** The parameter a named fragment declares: without its ':' and, when optional, without its '?'. */
  function ParamName(fragment: string): string
    requires IsNamed(fragment)
  {
    if IsOptional(fragment) then fragment[1..|fragment| - 1] else fragment[1..]
  }

  /** What one fragment contributes to the pattern. */
  function Piece(fragment: string): string
  {
    if fragment == "" then ""
    else Separator + (if IsNamed(fragment) then NamedGroup else fragment)
                   + (if IsOptional(fragment) then OptionalMark else "")
  }

  /** The pieces of all fragments, in order. */
  function Body(fragments: seq<string>): string
  {
    if fragments == [] then ""
    else Body(fragments[..|fragments| - 1]) + Piece(fragments[|fragments| - 1])
  }

  /** The parameters the named fragments declare, in order. */
  function Names(fragments: seq<string>): seq<string>
  {
    if fragments == [] then []
    else
      var last := fragments[|fragments| - 1];
      Names(fragments[..|fragments| - 1]) + (if IsNamed(last) then [ParamName(last)] else [])
  }

  /** The anchored pattern of a list of fragments. */
  function Anchored(fragments: seq<string>): (r: string)
    ensures |r| >= 3 && r[0] == '^' && r[|r| - 1] == '$'
  {
    var body := Body(fragments);
    "^" + (if body == "" then RootSeparator else body) + "$"
  }

  /** The anchored pattern compiled from a pathname. */
  function CompiledPattern(pathname: string): string
  {
    Anchored(Split(pathname))
  }

  /** The parameter names compiled from a pathname. */
  function ParamNames(pathname: string): seq<string>
  {
    Names(Split(pathname))
  }

  /**
   * Concatenation of strings is associative. Dafny knows this; calling the lemma
   * puts just this instance in front of the solver, which keeps the proofs that
   * use it within their resource budget.
   */
  lemma ConcatAssoc(a: string, b: string, c: string)
    ensures (a + b) + c == a + (b + c)
  {
  }

  /** Appending one fragment appends its piece. */
  lemma BodySnoc(fragments: seq<string>, f: string)
    ensures Body(fragments + [f]) == Body(fragments) + Piece(f)
  {
    var s := fragments + [f];
    assert s[..|s| - 1] == fragments;
  }

  /** One step of the compiling loop: appending the k-th piece gives the body of the first k + 1 fragments. */
  lemma BodyStep(fragments: seq<string>, k: nat, before: string, after: string)
    requires k < |fragments|
    requires before == "^" + Body(fragments[..k])
    requires after == before + Piece(fragments[k])
    ensures after == "^" + Body(fragments[..k + 1])
  {
    assert fragments[..k + 1] == fragments[..k] + [fragments[k]];
    BodySnoc(fragments[..k], fragments[k]);
    ConcatAssoc("^", Body(fragments[..k]), Piece(fragments[k]));
  }

  /** One step of the compiling loop: a named k-th fragment adds its name. */
  lemma NamesStep(fragments: seq<string>, k: nat, before: seq<string>, after: seq<string>)
    requires k < |fragments|
    requires before == Names(fragments[..k])
    requires after == before + (if IsNamed(fragments[k]) then [ParamName(fragments[k])] else [])
    ensures after == Names(fragments[..k + 1])
  {
    var init := fragments[..k + 1];
    assert init[..k] == fragments[..k];
  }

  /** The end of the compiling loop: an empty body becomes the root separator, then the anchor closes. */
  lemma FinishPattern(fragments: seq<string>, body: string)
    requires body == "^" + Body(fragments)
    ensures (if body == "^" then body + RootSeparator else body) + "$" == Anchored(fragments)
  {
    assert body == "^" <==> Body(fragments) == "" by {
      assert |body| == 1 + |Body(fragments)|;
      if Body(fragments) == "" { assert body == "^"; }
    }
  }

  /** Compiling a concatenation of fragment lists concatenates the bodies. */
  lemma {:induction false} BodyConcat(x: seq<string>, y: seq<string>)
    ensures Body(x + y) == Body(x) + Body(y)
    decreases |y|
  {
    if y == [] {
      assert x + y == x;
    } else {
      var n := |y| - 1;
      assert x + y == (x + y[..n]) + [y[n]];
      assert y == y[..n] + [y[n]];
      BodySnoc(x + y[..n], y[n]);
      BodySnoc(y[..n], y[n]);
      BodyConcat(x, y[..n]);
      ConcatAssoc(Body(x), Body(y[..n]), Piece(y[n]));
    }
  }

  /** Collecting names of a concatenation of fragment lists concatenates the names. */
  lemma {:induction false} NamesConcat(x: seq<string>, y: seq<string>)
    ensures Names(x + y) == Names(x) + Names(y)
    decreases |y|
  {
    if y == [] {
      assert x + y == x;
    } else {
      var n := |y| - 1;
      assert (x + y)[..|x + y| - 1] == x + y[..n];
      NamesConcat(x, y[..n]);
    }
  }

  /** Only the empty fragment contributes nothing; any other piece starts with a separator. */
  lemma PieceShape(f: string)
    ensures Piece(f) == "" <==> f == ""
    ensures f != "" ==> |Piece(f)| >= 3 && Piece(f)[..3] == Separator
  {
    if f != "" {
      var rest := (if IsNamed(f) then NamedGroup else f) + (if IsOptional(f) then OptionalMark else "");
      assert Piece(f) == Separator + rest;
      assert |Piece(f)| == 3 + |rest|;
      assert Piece(f)[..3] == Separator;
    }
  }

  /** The body is empty exactly when every fragment is empty. */
  lemma {:induction false} BodyEmptyIff(fragments: seq<string>)
    ensures Body(fragments) == "" <==> forall k :: 0 <= k < |fragments| ==> fragments[k] == ""
    decreases |fragments|
  {
    if fragments != [] {
      var n := |fragments| - 1;
      var init := fragments[..n];
      BodyEmptyIff(init);
      PieceShape(fragments[n]);
      assert |Body(fragments)| == |Body(init)| + |Piece(fragments[n])|;
      assert forall k :: 0 <= k < n ==> init[k] == fragments[k];
    }
  }

  /** A non-empty body starts with a separator. */
  lemma {:induction false} BodyStartsWithSeparator(fragments: seq<string>)
    requires Body(fragments) != ""
    ensures |Body(fragments)| >= 3 && Body(fragments)[..3] == Separator
    decreases |fragments|
  {
    var n := |fragments| - 1;
    var init := fragments[..n];
    if Body(init) != "" {
      BodyStartsWithSeparator(init);
      assert Body(fragments)[..3] == Body(init)[..3];
    } else {
      PieceShape(fragments[n]);
      assert Body(fragments) == Piece(fragments[n]);
    }
  }

  /** A body that starts with a separator never yields the root pattern. */
  lemma SeparatorBodyNotRoot(body: string)
    requires |body| >= 3 && body[..3] == Separator
    ensures "^" + body + "$" != RootPattern
  {
    var r := "^" + body + "$";
    assert r[3] == body[2] == body[..3][2];
  }

  /** Fragments compile to the root pattern exactly when none of them is non-empty. */
  lemma RootPatternIff(fragments: seq<string>)
    ensures Anchored(fragments) == RootPattern <==> forall k :: 0 <= k < |fragments| ==> fragments[k] == ""
  {
    var body := Body(fragments);
    BodyEmptyIff(fragments);
    if body != "" {
      BodyStartsWithSeparator(fragments);
      assert Anchored(fragments) == "^" + body + "$";
      SeparatorBodyNotRoot(body);
      var k :| 0 <= k < |fragments| && fragments[k] != "";
    } else {
      assert Anchored(fragments) == "^" + RootSeparator + "$";
    }
  }

  /**
   * Pathnames with the same body compile to the same pattern. Dafny proves this
   * unaided; the slash lemmas below call it so that their own proofs stay small.
   */
  lemma SameBodySamePattern(p: string, q: string)
    requires Body(Split(p)) == Body(Split(q))
    ensures CompiledPattern(p) == CompiledPattern(q)
  {
  }

  /** The empty pathname has a single, empty fragment, which contributes nothing. */
  lemma EmptyPathContributesNothing()
    ensures Body(Split("")) == "" && ParamNames("") == []
  {
    assert Split("") == [""];
    assert [""][..0] == [];
  }

  /** The part of a path on either side of a '/' compiles independently. */
  lemma CompileAroundSlash(a: string, b: string)
    ensures Body(Split(a + "/" + b)) == Body(Split(a)) + Body(Split(b))
    ensures ParamNames(a + "/" + b) == ParamNames(a) + ParamNames(b)
  {
    SplitConcat(a, b);
    BodyConcat(Split(a), Split(b));
    NamesConcat(Split(a), Split(b));
  }

  /** A leading slash adds only an empty fragment. */
  lemma LeadingSlashBody(p: string)
    ensures Body(Split("/" + p)) == Body(Split(p))
    ensures ParamNames("/" + p) == ParamNames(p)
  {
    var s := "/" + p;
    assert s[0] == '/' && s[1..] == p;
    assert Split(s) == [""] + Split(p);
    BodyConcat([""], Split(p));
    NamesConcat([""], Split(p));
    assert [""][..0] == [];
  }

  /** A leading slash contributes nothing. */
  lemma CompileIgnoresLeadingSlash(p: string)
    ensures CompiledPattern("/" + p) == CompiledPattern(p)
    ensures ParamNames("/" + p) == ParamNames(p)
  {
    LeadingSlashBody(p);
    SameBodySamePattern("/" + p, p);
  }

  /** A trailing slash contributes nothing. */
  lemma CompileIgnoresTrailingSlash(p: string)
    ensures CompiledPattern(p + "/") == CompiledPattern(p)
    ensures ParamNames(p + "/") == ParamNames(p)
  {
    assert p + "/" == p + "/" + "";
    CompileAroundSlash(p, "");
    EmptyPathContributesNothing();
    SameBodySamePattern(p + "/", p);
  }

  /** A doubled slash compiles like a single one. */
  lemma CompileCollapsesSlashes(a: string, b: string)
    ensures CompiledPattern(a + "//" + b) == CompiledPattern(a + "/" + b)
    ensures ParamNames(a + "//" + b) == ParamNames(a + "/" + b)
  {
    var t := "/" + b;
    assert a + "//" + b == a + "/" + t;
    CompileAroundSlash(a, t);
    LeadingSlashBody(b);
    CompileAroundSlash(a, b);
    SameBodySamePattern(a + "//" + b, a + "/" + b);
  }

  /** The indices of the named fragments, in increasing order. */
  ghost function NamedIndices(fragments: seq<string>): seq<nat>
  {
    if fragments == [] then []
    else
      var n := |fragments| - 1;
      NamedIndices(fragments[..n]) + (if IsNamed(fragments[n]) then [n] else [])
  }

  /**
   * The names are the named fragments, in order, stripped: the k-th name comes
   * from the k-th named fragment, and every named fragment gives one name.
   */
  lemma {:induction false} NamesAreNamedFragments(fragments: seq<string>)
    ensures |NamedIndices(fragments)| == |Names(fragments)|
    ensures forall k :: 0 <= k < |NamedIndices(fragments)| ==>
              NamedIndices(fragments)[k] < |fragments| && IsNamed(fragments[NamedIndices(fragments)[k]])
              && Names(fragments)[k] == ParamName(fragments[NamedIndices(fragments)[k]])
    ensures forall k, l :: 0 <= k < l < |NamedIndices(fragments)| ==> NamedIndices(fragments)[k] < NamedIndices(fragments)[l]
    ensures forall j :: 0 <= j < |fragments| && IsNamed(fragments[j]) ==> j in NamedIndices(fragments)
    decreases |fragments|
  {
    if fragments != [] {
      var n := |fragments| - 1;
      var init := fragments[..n];
      NamesAreNamedFragments(init);
      var idx, idx0 := NamedIndices(fragments), NamedIndices(init);
      assert forall k :: 0 <= k < |idx0| ==> idx0[k] < n;
      forall k | 0 <= k < |idx|
        ensures idx[k] < |fragments| && IsNamed(fragments[idx[k]]) && Names(fragments)[k] == ParamName(fragments[idx[k]])
      {
        if k < |idx0| {
          assert idx[k] == idx0[k];
          assert init[idx0[k]] == fragments[idx0[k]];
          assert Names(fragments)[k] == Names(init)[k];
        }
      }
      forall j | 0 <= j < |fragments| && IsNamed(fragments[j]) ensures j in idx {
        if j < n { assert init[j] == fragments[j]; }
      }
    }
  }

  /** Every parameter name is free of '/': it lies within one fragment. */
  lemma ParamNamesSlashFree(pathname: string)
    ensures forall k :: 0 <= k < |ParamNames(pathname)| ==> '/' !in ParamNames(pathname)[k]
  {
    var fragments := Split(pathname);
    NamesAreNamedFragments(fragments);
    forall k | 0 <= k < |ParamNames(pathname)| ensures '/' !in ParamNames(pathname)[k] {
      var f := fragments[NamedIndices(fragments)[k]];
      assert '/' !in f;
      var name := ParamName(f);
      forall c | 0 <= c < |name| ensures name[c] != '/' { assert name[c] == f[c + 1]; }
    }
  }
}
