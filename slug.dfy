/**
 * The slug the blog editor derives from a post title (src/pages/admin/blog/editor.tsx):
 *
 *   value.toLowerCase().replace(/[^a-z0-9]+/g, '-').replace(/(^-|-$)+/g, '')
 *
 * modelled as three functions, one per step of the chain.
 */
module Slug {
  import opened Text

  /** The characters `[a-z0-9]` that survive slugging. */
  predicate IsSlugAlnum(c: char) {
    'a' <= c <= 'z' || '0' <= c <= '9'
  }

  /** The characters a slug may contain. */
  predicate IsSlugChar(c: char) {
    IsSlugAlnum(c) || c == '-'
  }

  /** Drops the maximal run of characters outside `[a-z0-9]` at the front of `s`. */
  function SkipRun(s: string): (r: string)
    ensures |r| <= |s| && r == s[|s| - |r|..]
    ensures r == [] || IsSlugAlnum(r[0])
    ensures forall i :: 0 <= i < |s| - |r| ==> !IsSlugAlnum(s[i])
    ensures s != [] && !IsSlugAlnum(s[0]) ==> |r| < |s|
  {
    if s == [] || IsSlugAlnum(s[0]) then s else SkipRun(s[1..])
  }

  /** Step two, `.replace(/[^a-z0-9]+/g, '-')`: every maximal run of
      characters outside `[a-z0-9]` becomes one '-'. */
  function CollapseRuns(s: string): string
    decreases |s|
  {
    if s == [] then []
    else if IsSlugAlnum(s[0]) then [s[0]] + CollapseRuns(s[1..])
    else "-" + CollapseRuns(SkipRun(s))
  }

  /** Step three, `.replace(/(^-|-$)+/g, '')`, on any string: the global match
      removes one '-' at the start and one '-' at the end (for "--" the first
      match takes both). */
  function StripDashes(t: string): string {
    var a := if |t| > 0 && t[0] == '-' then 1 else 0;
    var b := if |t| > a && t[|t| - 1] == '-' then |t| - 1 else |t|;
    t[a..b]
  }

  /** The slug of a title. */
  function Slugify(title: string): string {
    StripDashes(CollapseRuns(Lower(title)))
  }

  /** Every character is one of `a`-`z`, `0`-`9`, `-`. */
  ghost predicate AllSlugChars(s: string) {
    forall i :: 0 <= i < |s| ==> IsSlugChar(s[i])
  }

  /** No two consecutive dashes. */
  ghost predicate NoDoubleDash(s: string) {
    forall i :: 0 <= i < |s| - 1 ==> !(s[i] == '-' && s[i + 1] == '-')
  }

  /** Neither the first nor the last character is a dash. */
  ghost predicate NoEdgeDash(s: string) {
    s == [] || (s[0] != '-' && s[|s| - 1] != '-')
  }

  /** The shape of a well-formed slug. */
  ghost predicate IsSlug(s: string) {
    AllSlugChars(s) && NoDoubleDash(s) && NoEdgeDash(s)
  }

  /** The letters and digits of `s`, in order. */
  function Alnums(s: string): (r: string)
    ensures |r| <= |s|
    ensures forall i :: 0 <= i < |r| ==> IsSlugAlnum(r[i])
  {
    if s == [] then []
    else if IsSlugAlnum(s[0]) then [s[0]] + Alnums(s[1..])
    else Alnums(s[1..])
  }

  lemma {:induction false} AlnumsAppend(a: string, b: string)
    ensures Alnums(a + b) == Alnums(a) + Alnums(b)
  {
    if a == [] {
      assert a + b == b;
    } else {
      assert (a + b)[1..] == a[1..] + b;
      AlnumsAppend(a[1..], b);
    }
  }

  /** A prefix of characters outside `[a-z0-9]` contributes nothing. */
  lemma {:induction false} AlnumsSkip(s: string, k: nat)
    requires k <= |s|
    requires forall i :: 0 <= i < k ==> !IsSlugAlnum(s[i])
    ensures Alnums(s[k..]) == Alnums(s)
  {
    if k > 0 {
      AlnumsSkip(s[1..], k - 1);
      assert s[1..][k - 1..] == s[k..];
    }
  }

  /** What step two produces: only slug characters, no double dash, the same
      letters and digits in the same order, and an alphanumeric stays first. */
  lemma {:induction false} CollapseShape(s: string)
    ensures AllSlugChars(CollapseRuns(s))
    ensures NoDoubleDash(CollapseRuns(s))
    ensures Alnums(CollapseRuns(s)) == Alnums(s)
    ensures s == [] <==> CollapseRuns(s) == []
    ensures s != [] && IsSlugAlnum(s[0]) ==> CollapseRuns(s)[0] == s[0]
    decreases |s|, 1
  {
    if s != [] {
      if IsSlugAlnum(s[0]) {
        CollapseShape(s[1..]);
        AlnumsAppend([s[0]], CollapseRuns(s[1..]));
      } else {
        CollapseShapeRun(s);
      }
    }
  }

  /** The case of `CollapseShape` where `s` starts with a run to replace. */
  lemma {:induction false} CollapseShapeRun(s: string)
    requires s != [] && !IsSlugAlnum(s[0])
    ensures AllSlugChars(CollapseRuns(s))
    ensures NoDoubleDash(CollapseRuns(s))
    ensures Alnums(CollapseRuns(s)) == Alnums(s)
    ensures CollapseRuns(s) != []
    decreases |s|, 0
  {
    var r := SkipRun(s);
    CollapseShape(r);
    var cr := CollapseRuns(r);
    assert CollapseRuns(s) == "-" + cr;
    AlnumsAppend("-", cr);
    AlnumsSkip(s, |s| - |r|);
    DashThen(cr);
  }

  /** A dash in front of slug characters without double dashes that do not
      start with a dash keeps both properties. */
  lemma DashThen(cr: string)
    requires AllSlugChars(cr) && NoDoubleDash(cr) && (cr == [] || cr[0] != '-')
    ensures AllSlugChars("-" + cr) && NoDoubleDash("-" + cr)
  {
    var c := "-" + cr;
    forall i | 0 <= i < |c| ensures IsSlugChar(c[i]) {
      if i > 0 {
        assert c[i] == cr[i - 1];
      }
    }
    forall i | 0 <= i < |c| - 1 ensures !(c[i] == '-' && c[i + 1] == '-') {
      if i > 0 {
        assert c[i] == cr[i - 1] && c[i + 1] == cr[i];
      } else {
        assert c[1] == cr[0];
      }
    }
  }

  /** The bounds of what step three keeps: one leading and one trailing dash go. */
  lemma StripBounds(t: string) returns (a: nat, b: nat)
    ensures a <= b <= |t| && StripDashes(t) == t[a..b]
    ensures a == 0 || (a == 1 && t[0] == '-')
    ensures b == |t| || (b == |t| - 1 && t[b] == '-')
  {
    a := if |t| > 0 && t[0] == '-' then 1 else 0;
    b := if |t| > a && t[|t| - 1] == '-' then |t| - 1 else |t|;
  }

  /** A piece of a string of slug characters without double dashes is one too. */
  lemma SliceShape(t: string, a: nat, b: nat)
    requires a <= b <= |t|
    requires AllSlugChars(t) && NoDoubleDash(t)
    ensures AllSlugChars(t[a..b]) && NoDoubleDash(t[a..b])
  {
    var u := t[a..b];
    forall i | 0 <= i < |u| - 1 ensures !(u[i] == '-' && u[i + 1] == '-') {
      assert u[i] == t[a + i] && u[i + 1] == t[a + i + 1];
    }
  }

  /** Step three drops only dashes, so the letters and digits are kept. */
  lemma StripAlnums(t: string)
    ensures Alnums(StripDashes(t)) == Alnums(t)
  {
    var a, b := StripBounds(t);
    var u := t[a..b];
    assert t == t[..a] + u + t[b..];
    AlnumsAppend(t[..a] + u, t[b..]);
    AlnumsAppend(t[..a], u);
    assert Alnums(t[..a]) == [] by {
      if a == 1 { assert t[..a] == "-"; }
    }
    assert Alnums(t[b..]) == [] by {
      if b < |t| { assert t[b..] == "-"; }
    }
  }

  /** Without double dashes in the input, step three leaves no dash at either end. */
  lemma StripEdges(t: string)
    requires NoDoubleDash(t)
    ensures NoEdgeDash(StripDashes(t))
  {
    var a, b := StripBounds(t);
    var u := t[a..b];
    if u != [] {
      assert u[0] == t[a];
      assert u[|u| - 1] == t[b - 1];
      assert a == 1 ==> t[1] != '-';
      assert b < |t| ==> t[b - 1] != '-';
    }
  }

  /** What step three makes of the output of step two: a well-formed slug with
      the same letters and digits. */
  lemma StripShape(t: string)
    requires AllSlugChars(t) && NoDoubleDash(t)
    ensures IsSlug(StripDashes(t))
    ensures Alnums(StripDashes(t)) == Alnums(t)
  {
    var a, b := StripBounds(t);
    SliceShape(t, a, b);
    StripEdges(t);
    StripAlnums(t);
  }

  /** The slug contains only `a`-`z`, `0`-`9` and `-`, never starts or ends with
      a dash, never has two dashes in a row, and keeps the lowercased title's
      letters and digits in their original order. */
  lemma SlugShape(title: string)
    ensures IsSlug(Slugify(title))
    ensures Alnums(Slugify(title)) == Alnums(Lower(title))
  {
    CollapseShape(Lower(title));
    StripShape(CollapseRuns(Lower(title)));
  }

  /** In a well-formed slug the first character is a letter or digit. */
  lemma SlugStartsAlnum(u: string)
    requires IsSlug(u)
    ensures u == [] <==> Alnums(u) == []
  {
  }

  /** The slug is empty exactly when the title has no ASCII letter or digit
      (an empty or all-punctuation title). */
  lemma SlugEmptyIff(title: string)
    ensures Slugify(title) == [] <==> Alnums(Lower(title)) == []
  {
    SlugShape(title);
    SlugStartsAlnum(Slugify(title));
  }

  /** Step two leaves a string without double or trailing dashes unchanged. */
  lemma {:induction false} CollapseFixed(u: string)
    requires AllSlugChars(u) && NoDoubleDash(u)
    requires u == [] || u[|u| - 1] != '-'
    ensures CollapseRuns(u) == u
    decreases |u|
  {
    if u != [] {
      SlugCharsTail(u);
      CollapseFixed(u[1..]);
      if IsSlugAlnum(u[0]) {
        assert [u[0]] + u[1..] == u;
      } else {
        assert SkipRun(u) == u[1..] by {
          assert |u| >= 2 && IsSlugAlnum(u[1]);
        }
        assert "-" + u[1..] == u;
      }
    }
  }

  /** Dropping the first character keeps a string of slug characters without
      double dashes so. */
  lemma SlugCharsTail(u: string)
    requires u != [] && AllSlugChars(u) && NoDoubleDash(u)
    requires u[|u| - 1] != '-'
    ensures AllSlugChars(u[1..]) && NoDoubleDash(u[1..])
    ensures u[1..] == [] || u[1..][|u[1..]| - 1] != '-'
    ensures u[0] == '-' ==> |u| >= 2 && u[1] != '-'
  {
    forall i | 0 <= i < |u| - 2 ensures !(u[1..][i] == '-' && u[1..][i + 1] == '-') {
      assert u[1..][i] == u[i + 1] && u[1..][i + 1] == u[i + 2];
    }
  }

  /** Lowercasing leaves slug characters unchanged. */
  lemma LowerOfSlugChars(u: string)
    requires AllSlugChars(u)
    ensures Lower(u) == u
  {
  }

  /** Slugging is idempotent: a slug is its own slug. */
  lemma SlugIdempotent(title: string)
    ensures Slugify(Slugify(title)) == Slugify(title)
  {
    var u := Slugify(title);
    SlugShape(title);
    LowerOfSlugChars(u);
    CollapseFixed(u);
  }

  /** Only `[a-z0-9]`. */
  ghost predicate AlnumOnly(w: string) {
    forall i :: 0 <= i < |w| ==> IsSlugAlnum(w[i])
  }

  /** Step two keeps a leading letter or digit. */
  lemma CollapseCons(c: char, rest: string)
    requires IsSlugAlnum(c)
    ensures CollapseRuns([c] + rest) == [c] + CollapseRuns(rest)
  {
    assert ([c] + rest)[1..] == rest;
  }

  /** A run of letters and digits passes through step two unchanged. */
  lemma {:induction false} CollapseAlnums(a: string, s: string)
    requires AlnumOnly(a)
    ensures CollapseRuns(a + s) == a + CollapseRuns(s)
  {
    if a == [] {
      assert a + s == s;
    } else {
      var tail := a[1..];
      assert AlnumOnly(tail) by {
        forall i | 0 <= i < |tail| ensures IsSlugAlnum(tail[i]) {
          assert tail[i] == a[i + 1];
        }
      }
      assert a + s == [a[0]] + (tail + s) by {
        assert a == [a[0]] + tail;
      }
      CollapseCons(a[0], tail + s);
      CollapseAlnums(tail, s);
      assert [a[0]] + (tail + CollapseRuns(s)) == a + CollapseRuns(s) by {
        assert a == [a[0]] + tail;
      }
    }
  }

  /** A title word: non-empty, and only ASCII letters and digits. */
  ghost predicate IsWord(w: string) {
    w != [] && forall i :: 0 <= i < |w| ==> IsSlugAlnum(LowerChar(w[i]))
  }

  /** Every word lowercased. */
  function LowerAll(ws: seq<string>): (r: seq<string>)
    ensures |r| == |ws| && forall k :: 0 <= k < |ws| ==> r[k] == Lower(ws[k])
  {
    if ws == [] then [] else [Lower(ws[0])] + LowerAll(ws[1..])
  }

  /** Lowercasing text joined with a non-letter lowercases each piece. */
  lemma {:induction false} LowerJoin(ws: seq<string>, sep: char)
    requires !IsUpper(sep)
    ensures Lower(Join(ws, sep)) == Join(LowerAll(ws), sep)
  {
    if |ws| > 1 {
      LowerJoin(ws[1..], sep);
      LowerAppend(ws[0] + [sep], Join(ws[1..], sep));
      LowerAppend(ws[0], [sep]);
      assert LowerAll(ws)[1..] == LowerAll(ws[1..]);
    }
  }

  /** Joined non-empty pieces start with the first piece's first character
      and end with the last piece's last character. */
  lemma {:induction false} JoinEnds(ws: seq<string>, sep: char)
    requires |ws| >= 1 && forall k :: 0 <= k < |ws| ==> ws[k] != []
    ensures var j := Join(ws, sep);
      j != [] && j[0] == ws[0][0] && j[|j| - 1] == ws[|ws| - 1][|ws[|ws| - 1]| - 1]
  {
    if |ws| > 1 {
      JoinEnds(ws[1..], sep);
    }
  }

  /** A non-empty run of `[a-z0-9]`. */
  ghost predicate IsAlnumWord(w: string) {
    w != [] && AlnumOnly(w)
  }

  /** `Join` unfolded once. */
  lemma JoinCons(ws: seq<string>, sep: char)
    requires |ws| > 1
    ensures Join(ws, sep) == ws[0] + ([sep] + Join(ws[1..], sep))
  {
  }

  /** A single space before a letter or digit becomes a dash. */
  lemma CollapseSpaceThen(rest: string)
    requires rest != [] && IsSlugAlnum(rest[0])
    ensures CollapseRuns([' '] + rest) == "-" + CollapseRuns(rest)
  {
    assert ([' '] + rest)[1..] == rest;
    assert SkipRun([' '] + rest) == rest;
  }

  /** Step two turns each space between lowercase words into a dash. */
  lemma {:induction false} CollapseJoin(ws: seq<string>)
    requires |ws| >= 1 && forall k :: 0 <= k < |ws| ==> IsAlnumWord(ws[k])
    ensures CollapseRuns(Join(ws, ' ')) == Join(ws, '-')
  {
    if |ws| == 1 {
      CollapseAlnums(ws[0], []);
      assert ws[0] + [] == ws[0];
    } else {
      var rest := Join(ws[1..], ' ');
      CollapseJoin(ws[1..]);
      JoinEnds(ws[1..], ' ');
      JoinCons(ws, ' ');
      JoinCons(ws, '-');
      CollapseAlnums(ws[0], [' '] + rest);
      CollapseSpaceThen(rest);
    }
  }

  /** A lowercased title word is a run of `[a-z0-9]`. */
  lemma LowerWord(w: string)
    requires IsWord(w)
    ensures IsAlnumWord(Lower(w))
  {
  }

  /** Step three leaves a string that has no dash at either end unchanged. */
  lemma StripKeeps(j: string)
    requires j != [] && j[0] != '-' && j[|j| - 1] != '-'
    ensures StripDashes(j) == j
  {
    assert j[0..|j|] == j;
  }

  /** A reference description of the slug: a title made of words separated by
      single spaces slugs to its lowercased words joined with dashes. */
  lemma SlugOfWords(ws: seq<string>)
    requires |ws| >= 1 && forall k :: 0 <= k < |ws| ==> IsWord(ws[k])
    ensures Slugify(Join(ws, ' ')) == Join(LowerAll(ws), '-')
  {
    var lws := LowerAll(ws);
    forall k | 0 <= k < |lws| ensures IsAlnumWord(lws[k]) {
      LowerWord(ws[k]);
    }
    LowerJoin(ws, ' ');
    CollapseJoin(lws);
    JoinEnds(lws, '-');
    StripKeeps(Join(lws, '-'));
  }

  lemma JoinPair(a: string, b: string, sep: char)
    ensures Join([a, b], sep) == a + [sep] + b
  {
    assert [a, b][1..] == [b];
  }

  lemma HelloWord()
    ensures IsWord("Hello") && Lower("Hello") == "hello"
  {
    var l := Lower("Hello");
    assert l[0] == 'h';
  }

  lemma WorldWord()
    ensures IsWord("World") && Lower("World") == "world"
  {
    var l := Lower("World");
    assert l[0] == 'w';
  }

  lemma HelloWorldWords()
    ensures IsWord("Hello") && IsWord("World")
    ensures LowerAll(["Hello", "World"]) == ["hello", "world"]
  {
    HelloWord();
    WorldWord();
  }

  /** The slug of the example title "Hello World". */
  lemma HelloWorld()
    ensures Slugify("Hello World") == "hello-world"
  {
    HelloWorldWords();
    SlugOfWords(["Hello", "World"]);
    JoinPair("Hello", "World", ' ');
    JoinPair("hello", "world", '-');
    assert "Hello" + [' '] + "World" == "Hello World";
    assert "hello" + ['-'] + "world" == "hello-world";
  }
}
