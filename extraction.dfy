/**
 * What `exec` makes of a match result (index.js:104-126). The regular
 * expression engine is not modelled: its answer comes in as a `MatchResult`.
 */
module Extraction {
  import opened Wrappers

  /** A key of the returned object: a parameter name, or the position of an unnamed group. */
  datatype Key = Name(name: string) | Index(index: nat)

  /** What `decodeURIComponent` does with a string: a decoded text, or a thrown `URIError`. */
  datatype Decoded = Decoded(text: string) | URIError

  /** The percent-decoder, left uninterpreted. */
  type Decoder = string -> Decoded

  /**
   * A successful match: `groups[0]` is the whole match and `groups[i]` the i-th
   * capture group, `None` (undefined) when it did not take part; `named` holds
   * the properties of named groups that the engine attaches to the result.
   */
  datatype MatchResult = MatchResult(groups: seq<Option<string>>, named: map<string, Option<string>>)

  /** The answer of `exec`: `false`, a parameter object, or a decoding error thrown. */
  datatype ExecResult = NoMatch | Matched(params: map<Key, Option<string>>) | DecodeFailure

  /** The text a group's value becomes when passed to a string function: `undefined` prints as "undefined". */
  function ArgumentText(v: Option<string>): string
  {
    match v
    case Some(s) => s
    case None => "undefined"
  }

  /** The value of a named-group property, `undefined` when absent. */
  function Lookup(named: map<string, Option<string>>, key: string): Option<string>
  {
    if key in named then named[key] else None
  }

  /**
   * Declared names: the k-th name (0-based) gets the decoded group k + 1 when
   * the match has that many groups; a later duplicate name overwrites an
   * earlier one; any failing decode aborts.
   */
  function NamedParams(names: seq<string>, groups: seq<Option<string>>, decode: Decoder): Option<map<Key, Option<string>>>
  {
    if names == [] then Some(map[])
    else
      var n := |names| - 1;
      match NamedParams(names[..n], groups, decode)
      case None => None
      case Some(m) =>
        if n + 1 < |groups| then
          match decode(ArgumentText(groups[n + 1]))
          case URIError => None
          case Decoded(v) => Some(m[Name(names[n]) := Some(v)])
        else Some(m)
  }

  /** A native regular expression: group i + 1 under position i. */
  function PositionalParams(groups: seq<Option<string>>): map<Key, Option<string>>
  {
    map j: nat | j + 1 < |groups| :: Index(j) := groups[j + 1]
  }

  /** Named groups reported by the engine: each name gets its property of the result. */
  function CapturedParams(captureNames: seq<string>, named: map<string, Option<string>>): map<Key, Option<string>>
  {
    map n | n in captureNames :: Name(n) := Lookup(named, n)
  }

  /**
   * The whole extraction: no match gives `false`; otherwise declared names win,
   * then a native regular expression's positions, then engine-reported group names.
   */
  function Extract(params: seq<string>, isRegExp: bool, m: Option<MatchResult>, decode: Decoder,
                   captureNames: Option<seq<string>>): (r: ExecResult)
    ensures r.NoMatch? <==> m.None?
    ensures r.DecodeFailure? ==> |params| > 0
    ensures m.Some? && params == [] && !isRegExp && captureNames.None? ==> r == Matched(map[])
  {
    match m
    case None => NoMatch
    case Some(result) =>
      if |params| > 0 then
        match NamedParams(params, result.groups, decode)
        case None => DecodeFailure
        case Some(p) => Matched(p)
      else if isRegExp then Matched(PositionalParams(result.groups))
      else if captureNames.Some? then Matched(CapturedParams(captureNames.value, result.named))
      else Matched(map[])
  }

  /** True when decoding group k + 1 for the k-th name would throw. */
  ghost predicate FailsAt(names: seq<string>, groups: seq<Option<string>>, decode: Decoder, k: int)
  {
    0 <= k < |names| && k + 1 < |groups| && decode(ArgumentText(groups[k + 1])).URIError?
  }

  /** True when the k-th name is given a value. */
  ghost predicate Supplied(names: seq<string>, groups: seq<Option<string>>, k: int)
  {
    0 <= k < |names| && k + 1 < |groups|
  }

  /** Extraction by declared names throws exactly when some supplied group fails to decode. */
  lemma {:induction false} NamedParamsFailure(names: seq<string>, groups: seq<Option<string>>, decode: Decoder)
    ensures NamedParams(names, groups, decode).None? <==> exists k :: FailsAt(names, groups, decode, k)
    decreases |names|
  {
    if names != [] {
      var n := |names| - 1;
      NamedParamsFailure(names[..n], groups, decode);
      forall k | 0 <= k < n ensures FailsAt(names[..n], groups, decode, k) == FailsAt(names, groups, decode, k) {
      }
      if NamedParams(names[..n], groups, decode).None? {
        var k :| FailsAt(names[..n], groups, decode, k);
        assert FailsAt(names, groups, decode, k);
      } else {
        forall k | 0 <= k < n ensures !FailsAt(names, groups, decode, k) {
          assert !FailsAt(names[..n], groups, decode, k);
        }
        assert NamedParams(names, groups, decode).None? <==> FailsAt(names, groups, decode, n);
      }
    }
  }

  /** The keys are exactly the supplied names, and every value is a decoded string. */
  lemma {:induction false} NamedParamsKeys(names: seq<string>, groups: seq<Option<string>>, decode: Decoder)
    requires NamedParams(names, groups, decode).Some?
    ensures forall key :: key in NamedParams(names, groups, decode).value
              <==> exists k :: Supplied(names, groups, k) && key == Name(names[k])
    ensures forall key :: key in NamedParams(names, groups, decode).value
              ==> NamedParams(names, groups, decode).value[key].Some?
    decreases |names|
  {
    if names != [] {
      var n := |names| - 1;
      NamedParamsKeys(names[..n], groups, decode);
      var m := NamedParams(names, groups, decode).value;
      forall key ensures key in m <==> exists k :: Supplied(names, groups, k) && key == Name(names[k]) {
        if key in m {
          if key in NamedParams(names[..n], groups, decode).value {
            var k :| Supplied(names[..n], groups, k) && key == Name(names[..n][k]);
            assert Supplied(names, groups, k) && key == Name(names[k]);
          } else {
            assert Supplied(names, groups, n) && key == Name(names[n]);
          }
        }
        if exists k :: Supplied(names, groups, k) && key == Name(names[k]) {
          var k :| Supplied(names, groups, k) && key == Name(names[k]);
          if k < n {
            assert Supplied(names[..n], groups, k) && key == Name(names[..n][k]);
          }
        }
      }
    }
  }

  /** A supplied name that no later supplied name repeats maps to its decoded group. */
  lemma {:induction false} NamedParamsValue(names: seq<string>, groups: seq<Option<string>>, decode: Decoder, k: nat)
    requires NamedParams(names, groups, decode).Some?
    requires Supplied(names, groups, k)
    requires forall j :: k < j && Supplied(names, groups, j) ==> names[j] != names[k]
    ensures decode(ArgumentText(groups[k + 1])).Decoded?
    ensures Name(names[k]) in NamedParams(names, groups, decode).value
    ensures NamedParams(names, groups, decode).value[Name(names[k])] == Some(decode(ArgumentText(groups[k + 1])).text)
    decreases |names|
  {
    var n := |names| - 1;
    if k < n {
      assert forall j :: k < j && Supplied(names[..n], groups, j) ==> names[..n][j] != names[..n][k] by {
        forall j | k < j && Supplied(names[..n], groups, j) ensures names[..n][j] != names[..n][k] {
          assert Supplied(names, groups, j);
        }
      }
      NamedParamsValue(names[..n], groups, decode, k);
      if n + 1 < |groups| {
        assert Supplied(names, groups, n);
      }
    }
  }

  /** Positional extraction stores exactly the groups after the whole match, one position lower. */
  lemma PositionalParamsAt(groups: seq<Option<string>>)
    ensures forall key :: key in PositionalParams(groups) <==> key.Index? && key.index + 1 < |groups|
    ensures forall i: nat :: i + 1 < |groups| ==> PositionalParams(groups)[Index(i)] == groups[i + 1]
  {
  }
}
