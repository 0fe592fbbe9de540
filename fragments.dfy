/**
 * Splitting a path on '/', as JavaScript's `String.prototype.split('/')` does:
 * every '/' separates two pieces, so "" gives [""], "/" gives ["", ""] and
 * "a//b" gives ["a", "", "b"].
 */
module Fragments {

  /** True when no piece contains a '/'. */
  ghost predicate SlashFree(pieces: seq<string>)
  {
    forall k :: 0 <= k < |pieces| ==> '/' !in pieces[k]
  }

  /** Glues pieces back together with a '/' between neighbours. */
  function Join(pieces: seq<string>): string
  {
    if |pieces| == 0 then ""
    else if |pieces| == 1 then pieces[0]
    else pieces[0] + "/" + Join(pieces[1..])
  }

  /** The pieces of `s` between its slashes; `Join` undoes it. */
  function Split(s: string): (r: seq<string>)
    ensures |r| >= 1
    ensures SlashFree(r)
    ensures Join(r) == s
    decreases |s|
  {
    if s == [] then [""]
    else if s[0] == '/' then [""] + Split(s[1..])
    else
      var rest := Split(s[1..]);
      JoinCons(s[0], rest);
      [[s[0]] + rest[0]] + rest[1..]
  }

  /** Prepending a character to the first piece prepends it to the joined string. */
  lemma {:induction false} JoinCons(c: char, pieces: seq<string>)
    requires |pieces| >= 1
    ensures Join([[c] + pieces[0]] + pieces[1..]) == [c] + Join(pieces)
  {
    var q := [[c] + pieces[0]] + pieces[1..];
    if |pieces| > 1 {
      assert q[1..] == pieces[1..];
    }
  }

  /** Joining a concatenation puts one '/' between the two joined halves. */
  lemma {:induction false} JoinConcat(x: seq<string>, y: seq<string>)
    requires |x| >= 1 && |y| >= 1
    ensures Join(x + y) == Join(x) + "/" + Join(y)
    decreases |x|
  {
    if |x| == 1 {
      assert (x + y)[1..] == y;
    } else {
      assert (x + y)[1..] == x[1..] + y;
      JoinConcat(x[1..], y);
    }
  }

  /** A slash-free string is a single piece. */
  lemma {:induction false} SplitSlashFree(p: string)
    requires '/' !in p
    ensures Split(p) == [p]
    decreases |p|
  {
    if p != [] {
      assert '/' !in p[1..] by {
        forall k | 0 <= k < |p[1..]| ensures p[1..][k] != '/' { assert p[1..][k] == p[k + 1]; }
      }
      SplitSlashFree(p[1..]);
      assert [p[0]] + p[1..] == p;
    }
  }

  /** A slash-free prefix followed by a '/' becomes the first piece. */
  lemma {:induction false} SplitAfterPiece(p: string, t: string)
    requires '/' !in p
    ensures Split(p + "/" + t) == [p] + Split(t)
    decreases |p|
  {
    if p == [] {
      assert p + "/" + t == "/" + t;
      assert ("/" + t)[1..] == t;
    } else {
      var s := p + "/" + t;
      assert s[0] == p[0];
      assert s[1..] == p[1..] + "/" + t;
      assert '/' !in p[1..] by {
        forall k | 0 <= k < |p[1..]| ensures p[1..][k] != '/' { assert p[1..][k] == p[k + 1]; }
      }
      SplitAfterPiece(p[1..], t);
      assert [p[0]] + p[1..] == p;
    }
  }

  /** Round trip: splitting the join of slash-free pieces gives the pieces back. */
  lemma {:induction false} SplitJoin(pieces: seq<string>)
    requires |pieces| >= 1 && SlashFree(pieces)
    ensures Split(Join(pieces)) == pieces
    decreases |pieces|
  {
    if |pieces| == 1 {
      SplitSlashFree(pieces[0]);
    } else {
      assert SlashFree(pieces[1..]) by {
        forall k | 0 <= k < |pieces[1..]| ensures '/' !in pieces[1..][k] { assert pieces[1..][k] == pieces[k + 1]; }
      }
      SplitJoin(pieces[1..]);
      SplitAfterPiece(pieces[0], Join(pieces[1..]));
      assert [pieces[0]] + pieces[1..] == pieces;
    }
  }

  /** Concatenating slash-free piece lists keeps them slash-free. */
  lemma SlashFreeConcat(x: seq<string>, y: seq<string>)
    requires SlashFree(x) && SlashFree(y)
    ensures SlashFree(x + y)
  {
    forall k | 0 <= k < |x + y| ensures '/' !in (x + y)[k] {
      if k < |x| { assert (x + y)[k] == x[k]; } else { assert (x + y)[k] == y[k - |x|]; }
    }
  }

  /** Splitting around one '/' splits each side independently. */
  lemma SplitConcat(a: string, b: string)
    ensures Split(a + "/" + b) == Split(a) + Split(b)
  {
    var x, y := Split(a), Split(b);
    JoinConcat(x, y);
    SlashFreeConcat(x, y);
    SplitJoin(x + y);
  }
}
