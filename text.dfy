/** The string operations the converter and the builder rely on: the postfix accumulator,
    Java's `String.trim()` and `String.split(" ")`, and tokens joined by single spaces. */
module Text {

  /** What a StringBuilder holds after `append(t).append(" ")` for every token t in turn. */
  function Emit(toks: seq<string>): string
  {
    if toks == [] then "" else Emit(toks[..|toks| - 1]) + toks[|toks| - 1] + " "
  }

  lemma EmitSnoc(toks: seq<string>, t: string)
    ensures Emit(toks + [t]) == Emit(toks) + t + " "
  {
    assert (toks + [t])[..|toks|] == toks;
  }

  lemma {:induction false} EmitAppend(a: seq<string>, b: seq<string>)
    ensures Emit(a + b) == Emit(a) + Emit(b)
  {
    if b == [] {
      assert a + b == a;
    } else {
      var init := b[..|b| - 1];
      assert a + b == (a + init) + [b[|b| - 1]];
      assert b == init + [b[|b| - 1]];
      EmitAppend(a, init);
      EmitSnoc(a + init, b[|b| - 1]);
      EmitSnoc(init, b[|b| - 1]);
    }
  }

  /** The tokens separated by single spaces, with nothing before the first or after the last. */
  function Join(toks: seq<string>): string
  {
    if toks == [] then "" else if |toks| == 1 then toks[0] else toks[0] + " " + Join(toks[1..])
  }

  /** Emitting every token with its trailing space is joining them and adding one space. */
  lemma {:induction false} EmitIsJoin(toks: seq<string>)
    requires toks != []
    ensures Emit(toks) == Join(toks) + " "
  {
    assert toks == [toks[0]] + toks[1..];
    EmitAppend([toks[0]], toks[1..]);
    EmitSnoc([], toks[0]);
    if |toks| > 1 {
      EmitIsJoin(toks[1..]);
    }
  }

  /** The characters `String.trim()` removes: every code point up to and including the space. */
  predicate IsBlank(c: char)
  {
    c <= ' '
  }

  /** A token with at least one character and no blank in it. */
  predicate IsSolid(t: string)
  {
    |t| > 0 && forall k :: 0 <= k < |t| ==> !IsBlank(t[k])
  }

  function TrimEnd(s: string): (r: string)
    ensures |r| <= |s| && r == s[..|r|]
    ensures r == [] || !IsBlank(r[|r| - 1])
    ensures forall k :: |r| <= k < |s| ==> IsBlank(s[k])
  {
    if s != [] && IsBlank(s[|s| - 1]) then TrimEnd(s[..|s| - 1]) else s
  }

  function TrimStart(s: string): (r: string)
    ensures |r| <= |s| && r == s[|s| - |r|..]
    ensures r == [] || !IsBlank(r[0])
    ensures forall k :: 0 <= k < |s| - |r| ==> IsBlank(s[k])
  {
    if s != [] && IsBlank(s[0]) then TrimStart(s[1..]) else s
  }

  /** Java's `String.trim()`: the blanks at both ends removed. */
  function Trim(s: string): (r: string)
    ensures r == [] || (!IsBlank(r[0]) && !IsBlank(r[|r| - 1]))
  {
    TrimStart(TrimEnd(s))
  }

  lemma {:induction false} JoinEnds(toks: seq<string>)
    requires toks != []
    requires forall i :: 0 <= i < |toks| ==> IsSolid(toks[i])
    ensures var j := Join(toks); |j| > 0 && !IsBlank(j[0]) && !IsBlank(j[|j| - 1])
  {
    if |toks| > 1 {
      JoinEnds(toks[1..]);
      assert Join(toks) == (toks[0] + " ") + Join(toks[1..]);
    }
  }

  /** Trimming the accumulator of solid tokens leaves exactly the tokens joined by single spaces. */
  lemma TrimEmit(toks: seq<string>)
    requires forall i :: 0 <= i < |toks| ==> IsSolid(toks[i])
    ensures Trim(Emit(toks)) == Join(toks)
  {
    if toks != [] {
      EmitIsJoin(toks);
      JoinEnds(toks);
      var j := Join(toks);
      assert (j + " ")[..|j|] == j;
      assert TrimEnd(j + " ") == TrimEnd(j);
    }
  }

  /** The pieces of `s` between its spaces: as many as the spaces plus one, empty ones included. */
  function Fields(s: string): (r: seq<string>)
    ensures |r| > 0
    ensures forall i :: 0 <= i < |r| ==> ' ' !in r[i]
    ensures Join(r) == s
  {
    if s == [] then [""]
    else
      var f := Fields(s[1..]);
      if s[0] == ' ' then
        assert Join([""] + f) == " " + Join(f) by {
          assert ([""] + f)[1..] == f;
        }
        [""] + f
      else
        var r := [[s[0]] + f[0]] + f[1..];
        assert Join(r) == s by {
          if |f| > 1 {
            assert r[1..] == f[1..];
            assert Join(f) == f[0] + " " + Join(f[1..]);
          }
          assert s == [s[0]] + s[1..];
        }
        r
  }

  /** `fs` without the empty strings at its end. */
  function DropTrailingEmpty(fs: seq<string>): (r: seq<string>)
    ensures |r| <= |fs| && r == fs[..|r|]
    ensures r == [] || r[|r| - 1] != ""
    ensures forall k :: |r| <= k < |fs| ==> fs[k] == ""
  {
    if fs != [] && fs[|fs| - 1] == "" then DropTrailingEmpty(fs[..|fs| - 1]) else fs
  }

  /** Java's `s.split(" ")`: with no space in `s` the result is `[s]` (so `""` splits to `[""]`);
      otherwise the fields between spaces, without the empty strings at the end. */
  function Split(s: string): seq<string>
  {
    if ' ' !in s then [s] else DropTrailingEmpty(Fields(s))
  }

  lemma SpaceAfter(x: string, y: string)
    ensures (x + " " + y)[|x|] == ' '
    ensures forall k :: 0 <= k < |x| ==> (x + " " + y)[k] == x[k]
  {
  }

  lemma SpaceFreeJoin(x: string, y: string, x': string, y': string)
    requires ' ' !in x && ' ' !in x'
    requires x + " " + y == x' + " " + y'
    ensures x == x' && y == y'
  {
    SpaceAfter(x, y);
    SpaceAfter(x', y');
    if |x| < |x'| {
      assert false;
    } else if |x'| < |x| {
      assert false;
    } else {
      assert x == (x + " " + y)[..|x|];
      assert x' == (x' + " " + y')[..|x|];
      assert y == (x + " " + y)[|x| + 1..];
      assert y' == (x' + " " + y')[|x| + 1..];
    }
  }

  /** Joining by single spaces loses nothing when no piece holds a space and there is one piece at least. */
  lemma {:induction false} JoinInjective(a: seq<string>, b: seq<string>)
    requires a != [] && b != []
    requires forall i :: 0 <= i < |a| ==> ' ' !in a[i]
    requires forall i :: 0 <= i < |b| ==> ' ' !in b[i]
    requires Join(a) == Join(b)
    ensures a == b
  {
    if |a| > 1 && |b| > 1 {
      SpaceFreeJoin(a[0], Join(a[1..]), b[0], Join(b[1..]));
      JoinInjective(a[1..], b[1..]);
      assert a == [a[0]] + a[1..];
      assert b == [b[0]] + b[1..];
    }
  }

  /** Splitting on `" "` recovers a non-empty sequence of non-empty, space-free tokens from their join. */
  lemma SplitJoin(toks: seq<string>)
    requires toks != []
    requires forall i :: 0 <= i < |toks| ==> |toks[i]| > 0 && ' ' !in toks[i]
    ensures Split(Join(toks)) == toks
  {
    var s := Join(toks);
    if ' ' in s {
      JoinInjective(Fields(s), toks);
    } else {
      JoinInjective([s], toks);
    }
  }
}
