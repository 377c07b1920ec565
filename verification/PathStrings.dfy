/** Searching in strings, and separator-led strings as lists of components. */
module PathStrings {
  import opened Options

  predicate At(s: string, pat: string, i: nat) {
    i + |pat| <= |s| && s[i..i + |pat|] == pat
  }

  /** std::string::find: the first occurrence at or after `from`. */
  function Find(s: string, pat: string, from: nat): (r: Option<nat>)
    ensures r.Some? ==> from <= r.value && At(s, pat, r.value) && forall j: nat | from <= j < r.value :: !At(s, pat, j)
    ensures r.None? ==> forall j: nat | from <= j :: !At(s, pat, j)
    decreases |s| - from
  {
    if from + |pat| > |s| then None
    else if At(s, pat, from) then Some(from)
    else Find(s, pat, from + 1)
  }

  /** std::string::rfind: the last occurrence, looking no further right than `to`. */
  function FindBack(s: string, pat: string, to: nat): (r: Option<nat>)
    ensures r.Some? ==> r.value <= to && At(s, pat, r.value) && forall j: nat | r.value < j <= to :: !At(s, pat, j)
    ensures r.None? ==> forall j: nat | j <= to :: !At(s, pat, j)
  {
    if At(s, pat, to) then Some(to)
    else if to == 0 then None
    else FindBack(s, pat, to - 1)
  }

  function RFind(s: string, pat: string): (r: Option<nat>)
    ensures r.Some? ==> At(s, pat, r.value) && forall j: nat | r.value < j :: !At(s, pat, j)
    ensures r.None? ==> forall j: nat :: !At(s, pat, j)
  {
    FindBack(s, pat, |s|)
  }

  // ----------------------------------------------------------- components

  predicate Led(s: string, sep: char) {
    s == "" || s[0] == sep
  }

  predicate Free(w: string, sep: char) {
    sep !in w
  }

  predicate AllFree(cs: seq<string>, sep: char) {
    forall i | 0 <= i < |cs| :: Free(cs[i], sep)
  }

  /** The first separator at or after i, or the end. */
  function NextSep(s: string, sep: char, i: nat): (n: nat)
    requires i <= |s|
    ensures i <= n <= |s| && Free(s[i..n], sep) && (n < |s| ==> s[n] == sep)
    decreases |s| - i
  {
    if i == |s| || s[i] == sep then i else
    var n := NextSep(s, sep, i + 1);
    assert s[i..n] == [s[i]] + s[i + 1..n];
    n
  }

  /** "/a//b/" is the list of "a", "", "b", "". */
  function Comps(s: string, sep: char): (cs: seq<string>)
    requires Led(s, sep)
    ensures s == "" <==> cs == []
    ensures AllFree(cs, sep)
    decreases |s|
  {
    if s == "" then [] else
    var n := NextSep(s, sep, 1);
    [s[1..n]] + Comps(s[n..], sep)
  }

  function Join(cs: seq<string>, sep: char): (s: string)
    ensures Led(s, sep) && (s == "" <==> cs == [])
  {
    if cs == [] then "" else [sep] + cs[0] + Join(cs[1..], sep)
  }

  lemma Cut(s: string, i: nat, n: nat)
    requires i <= n <= |s|
    ensures s == s[..i] + (s[i..n] + s[n..])
  {
  }

  /** A non-empty path is its first component and a shorter path. */
  lemma CompsStep(s: string, sep: char) returns (w: string, rest: string)
    requires Led(s, sep) && s != ""
    ensures Led(rest, sep) && |rest| < |s| && s == [sep] + (w + rest)
    ensures Comps(s, sep) == [w] + Comps(rest, sep)
  {
    var n := NextSep(s, sep, 1);
    w, rest := s[1..n], s[n..];
    Cut(s, 1, n);
    assert s[..1] == [sep];
  }

  lemma JoinCons(w: string, cs: seq<string>, sep: char)
    ensures Join([w] + cs, sep) == [sep] + (w + Join(cs, sep))
  {
    assert ([w] + cs)[1..] == cs;
    assert [sep] + w + Join(cs, sep) == [sep] + (w + Join(cs, sep));
  }

  lemma {:induction false} JoinComps(s: string, sep: char)
    requires Led(s, sep)
    ensures Join(Comps(s, sep), sep) == s
    decreases |s|
  {
    if s != "" {
      var w, rest := CompsStep(s, sep);
      JoinComps(rest, sep);
      JoinCons(w, Comps(rest, sep), sep);
    }
  }

  lemma CompsOne(w: string, b: string, sep: char)
    requires Free(w, sep) && Led(b, sep)
    ensures Comps([sep] + w + b, sep) == [w] + Comps(b, sep)
  {
    var s := [sep] + w + b;
    assert s[1..1 + |w|] == w && s[1 + |w|..] == b;
  }

  lemma {:induction false} CompsJoin(cs: seq<string>, sep: char)
    requires AllFree(cs, sep)
    ensures Comps(Join(cs, sep), sep) == cs
  {
    if cs != [] {
      assert AllFree(cs[1..], sep);
      CompsJoin(cs[1..], sep);
      CompsOne(cs[0], Join(cs[1..], sep), sep);
    }
  }

  lemma {:induction false} JoinConcat(a: seq<string>, b: seq<string>, sep: char)
    ensures Join(a + b, sep) == Join(a, sep) + Join(b, sep)
  {
    if a == [] {
      assert a + b == b;
    } else {
      assert (a + b)[1..] == a[1..] + b;
      JoinConcat(a[1..], b, sep);
    }
  }

  /** Cutting in front of a separator cuts the list of components. */
  lemma CompsConcat(a: string, b: string, sep: char)
    requires Led(a, sep) && Led(b, sep)
    ensures Led(a + b, sep) && Comps(a + b, sep) == Comps(a, sep) + Comps(b, sep)
  {
    JoinComps(a, sep);
    JoinComps(b, sep);
    JoinConcat(Comps(a, sep), Comps(b, sep), sep);
    CompsJoin(Comps(a, sep) + Comps(b, sep), sep);
  }

  lemma CompsAround(a: string, w: string, b: string, sep: char)
    requires Led(a, sep) && Led(b, sep) && Free(w, sep)
    ensures Led(a + ([sep] + w + b), sep) && Comps(a + ([sep] + w + b), sep) == Comps(a, sep) + [w] + Comps(b, sep)
  {
    CompsOne(w, b, sep);
    CompsConcat(a, [sep] + w + b, sep);
  }

  /** Where "/w/" or a final "/w" occurs, w is a component, and the rest is the other components. */
  lemma OccurrenceIsComponent(s: string, w: string, i: nat, n: nat, sep: char)
    requires Led(s, sep) && Free(w, sep) && At(s, [sep] + w, i)
    requires n == i + 1 + |w| && (n == |s| || s[n] == sep)
    ensures Led(s[..i], sep) && Led(s[n..], sep)
    ensures Comps(s, sep) == Comps(s[..i], sep) + [w] + Comps(s[n..], sep)
  {
    Cut(s, i, n);
    CompsAround(s[..i], w, s[n..], sep);
  }

  /** Every component occurs, with a separator behind it unless it is the last. */
  lemma ComponentOccurs(s: string, k: nat, sep: char) returns (i: nat)
    requires Led(s, sep) && k < |Comps(s, sep)|
    ensures var cs := Comps(s, sep); var n := i + 1 + |cs[k]|;
            && At(s, [sep] + cs[k], i)
            && (if k + 1 < |cs| then n < |s| && s[n] == sep else n == |s|)
            && (k > 0 ==> i > 0)
  {
    var cs := Comps(s, sep);
    JoinComps(s, sep);
    i := |Join(cs[..k], sep)|;
    assert cs == cs[..k] + cs[k..];
    JoinConcat(cs[..k], cs[k..], sep);
    assert cs[k..][1..] == cs[k + 1..];
    assert s == Join(cs[..k], sep) + ([sep] + cs[k] + Join(cs[k + 1..], sep));
  }
}
