/**
 path::Normalize: a program that rewrites a string until no pattern is left, proved equal to a
 single left-to-right evaluation of the path's components on a stack.
 */
module PathNormalize {
  import opened Options
  import opened PathStrings

  // -------------------------------------------------------- specification

  function Slashes(path: string, sep: char): (s: string)
    ensures |s| == |path|
  {
    seq(|path|, i requires 0 <= i < |path| => if path[i] == '\\' then sep else path[i])
  }

  predicate IsRelative(path: string, sep: char) {
    var s := Slashes(path, sep);
    s == "" || s[0] != sep
  }

  /** The path with a leading separator, which relative paths get for the time being. */
  function Rooted(path: string, sep: char): (s: string)
    ensures s != "" && s[0] == sep
  {
    var s := Slashes(path, sep);
    if s == "" || s[0] != sep then [sep] + s else s
  }

  function LeadingEmpties(cs: seq<string>): (n: nat)
    ensures n <= |cs|
  {
    if cs == [] || cs[0] != "" then 0 else 1 + LeadingEmpties(cs[1..])
  }

  /** How many separators the string of these components begins with. */
  function LeadingRun(cs: seq<string>): nat {
    if LeadingEmpties(cs) == |cs| then |cs| else LeadingEmpties(cs) + 1
  }

  function NonEmpty(cs: seq<string>): seq<string> {
    if cs == [] then [] else (if cs[0] == "" then [] else [cs[0]]) + NonEmpty(cs[1..])
  }

  /** Runs of separators become one separator, except that an even leading run becomes two. */
  function Collapse(cs: seq<string>): seq<string>
    requires cs != []
  {
    (if LeadingRun(cs) % 2 == 0 then [""] else [])
    + NonEmpty(cs)
    + (if cs[|cs| - 1] == "" then [""] else [])
  }

  /** Components from left to right: "." is dropped, ".." pops, anything else is pushed. Popping the
      empty stack ends the evaluation. */
  function Eval(stack: seq<string>, cs: seq<string>): Option<seq<string>>
    decreases |cs|
  {
    if cs == [] then Some(stack)
    else if cs[0] == "." then Eval(stack, cs[1..])
    else if cs[0] == ".." then
      if stack == [] then None else Eval(stack[..|stack| - 1], cs[1..])
    else Eval(stack + [cs[0]], cs[1..])
  }

  function Root(relative: bool, sep: char): string {
    if relative then "" else [sep]
  }

  function Shown(result: Option<seq<string>>, relative: bool, sep: char): string {
    if result.None? || result.value == [] then Root(relative, sep)
    else if relative then Join(result.value, sep)[1..]
    else Join(result.value, sep)
  }

  function Normalized(path: string, sep: char): string {
    Shown(Eval([], Collapse(Comps(Rooted(path, sep), sep))), IsRelative(path, sep), sep)
  }

  // ----------------------------------------------- rewriting keeps Collapse

  lemma {:induction false} LeadingEmptiesConcat(a: seq<string>, b: seq<string>)
    ensures LeadingEmpties(a + b) == if LeadingEmpties(a) == |a| then |a| + LeadingEmpties(b) else LeadingEmpties(a)
  {
    if a == [] {
      assert a + b == b;
    } else {
      assert (a + b)[1..] == a[1..] + b;
      LeadingEmptiesConcat(a[1..], b);
    }
  }

  lemma {:induction false} NonEmptyConcat(a: seq<string>, b: seq<string>)
    ensures NonEmpty(a + b) == NonEmpty(a) + NonEmpty(b)
  {
    if a == [] {
      assert a + b == b;
    } else {
      assert (a + b)[1..] == a[1..] + b;
      NonEmptyConcat(a[1..], b);
    }
  }

  lemma ConsEmpty(b: seq<string>)
    ensures LeadingEmpties([""] + b) == 1 + LeadingEmpties(b) && NonEmpty([""] + b) == NonEmpty(b)
  {
    assert ([""] + b)[1..] == b;
  }

  lemma RunConcat(a: seq<string>, b: seq<string>)
    ensures LeadingRun(a + b) == if LeadingEmpties(a) == |a| then |a| + LeadingRun(b) else LeadingEmpties(a) + 1
  {
    LeadingEmptiesConcat(a, b);
  }

  lemma RunCons(b: seq<string>)
    ensures LeadingRun([""] + b) == 1 + LeadingRun(b)
  {
    ConsEmpty(b);
  }

  lemma PairKeepsParity(a: seq<string>, b: seq<string>)
    ensures LeadingRun(a + ([""] + ([""] + b))) % 2 == LeadingRun(a + b) % 2
  {
    RunCons(b);
    RunCons([""] + b);
    RunConcat(a, b);
    RunConcat(a, [""] + ([""] + b));
  }

  /** Three separators in a row may become one. */
  lemma CollapseDropsPair(a: seq<string>, b: seq<string>)
    requires b != []
    ensures Collapse(a + ([""] + ([""] + b))) == Collapse(a + b)
  {
    var c := [""] + ([""] + b);
    PairKeepsParity(a, b);
    ConsEmpty(b);
    ConsEmpty([""] + b);
    NonEmptyConcat(a, b);
    NonEmptyConcat(a, c);
    assert (a + c)[|a + c| - 1] == b[|b| - 1] == (a + b)[|a + b| - 1];
  }

  lemma RunEndsBefore(a: seq<string>, b: seq<string>)
    requires a != [] && a[|a| - 1] != ""
    ensures LeadingRun(a + b) == LeadingEmpties(a) + 1
  {
    if LeadingEmpties(a) == |a| {
      AllEmpty(a);
    }
    RunConcat(a, b);
  }

  /** Two separators behind a component may become one. */
  lemma CollapseDropsOne(a: seq<string>, b: seq<string>)
    requires b != [] && a != [] && a[|a| - 1] != ""
    ensures Collapse(a + ([""] + b)) == Collapse(a + b)
  {
    var c := [""] + b;
    RunEndsBefore(a, b);
    RunEndsBefore(a, c);
    ConsEmpty(b);
    NonEmptyConcat(a, b);
    NonEmptyConcat(a, c);
    assert (a + c)[|a + c| - 1] == b[|b| - 1] == (a + b)[|a + b| - 1];
  }

  lemma {:induction false} AllEmpty(cs: seq<string>)
    requires LeadingEmpties(cs) == |cs|
    ensures forall i | 0 <= i < |cs| :: cs[i] == ""
  {
    if cs != [] {
      AllEmpty(cs[1..]);
    }
  }

  /** Nothing is left to collapse when only the first and last components are empty, if any. */
  lemma CollapseFixed(cs: seq<string>)
    requires cs != [] && forall i | 0 < i < |cs| - 1 :: cs[i] != ""
    ensures Collapse(cs) == cs
  {
    if |cs| == 1 {
      assert cs == [cs[0]] && cs[1..] == [];
      assert NonEmpty(cs) == if cs[0] == "" then [] else [cs[0]];
      assert LeadingEmpties(cs) == if cs[0] == "" then 1 else 0;
    } else {
      var mid, last := cs[1..|cs| - 1], cs[|cs| - 1];
      assert cs == [cs[0]] + (mid + [last]);
      NonEmptyKeeps(mid);
      NonEmptyConcat([cs[0]], mid + [last]);
      NonEmptyConcat(mid, [last]);
      LeadingEmptiesConcat([cs[0]], mid + [last]);
      LeadingEmptiesConcat(mid, [last]);
    }
  }

  lemma {:induction false} NonEmptyKeeps(cs: seq<string>)
    requires forall i | 0 <= i < |cs| :: cs[i] != ""
    ensures NonEmpty(cs) == cs && LeadingEmpties(cs) == 0
  {
    if cs != [] {
      NonEmptyKeeps(cs[1..]);
    }
  }

  // --------------------------------------------------- rewriting keeps Eval

  lemma {:induction false} EvalConcat(stack: seq<string>, a: seq<string>, b: seq<string>)
    ensures Eval(stack, a + b) == (match Eval(stack, a) case None => None case Some(st) => Eval(st, b))
    decreases |a|
  {
    if a == [] {
      assert a + b == b;
    } else {
      assert (a + b)[1..] == a[1..] + b;
      if a[0] == "." {
        EvalConcat(stack, a[1..], b);
      } else if a[0] == ".." {
        if stack != [] {
          EvalConcat(stack[..|stack| - 1], a[1..], b);
        }
      } else {
        EvalConcat(stack + [a[0]], a[1..], b);
      }
    }
  }

  predicate Plain(c: string) {
    c != "." && c != ".."
  }

  lemma {:induction false} EvalPlain(stack: seq<string>, cs: seq<string>)
    requires forall i | 0 <= i < |cs| :: Plain(cs[i])
    ensures Eval(stack, cs) == Some(stack + cs)
    decreases |cs|
  {
    if cs == [] {
      assert stack + cs == stack;
    } else {
      EvalPlain(stack + [cs[0]], cs[1..]);
      assert stack + [cs[0]] + cs[1..] == stack + cs;
    }
  }

  lemma EvalDropsDot(a: seq<string>, b: seq<string>)
    ensures Eval([], a + ["."] + b) == Eval([], a + b)
  {
    EvalConcat([], a, b);
    assert a + ["."] + b == a + (["."] + b) && (["."] + b)[1..] == b;
    EvalConcat([], a, ["."] + b);
  }

  /** A component and the ".." behind it cancel. */
  lemma EvalCancels(a: seq<string>, c: string, b: seq<string>)
    requires Plain(c)
    ensures Eval([], a + [c] + [".."] + b) == Eval([], a + b)
  {
    var d := [".."] + b;
    EvalConcat([], a, b);
    assert a + [c] + [".."] + b == a + ([c] + d);
    assert ([c] + d)[1..] == d && d[1..] == b;
    EvalConcat([], a, [c] + d);
    if Eval([], a).Some? {
      var st := Eval([], a).value;
      assert (st + [c])[..|st + [c]| - 1] == st;
    }
  }

  // ------------------------------------------------------------ the program

  predicate Absolute(s: string, sep: char) {
    s != "" && s[0] == sep
  }

  method ReplaceBackslashes(path: string, sep: char) returns (s: string)
    ensures s == Slashes(path, sep)
  {
    s := path;
    for i := 0 to |s|
      invariant |s| == |path|
      invariant forall j | 0 <= j < i :: s[j] == Slashes(path, sep)[j]
      invariant forall j | i <= j < |s| :: s[j] == path[j]
    {
      if s[i] == '\\' {
        s := s[i := sep];
      }
    }
  }

  lemma TripleStep(s: string, i: nat, sep: char)
    requires Absolute(s, sep) && At(s, [sep, sep, sep], i)
    ensures Absolute(s[..i] + s[i + 2..], sep)
    ensures Collapse(Comps(s[..i] + s[i + 2..], sep)) == Collapse(Comps(s, sep))
  {
    var a, b := s[..i], s[i + 2..];
    assert s[i] == s[i..i + 3][0] && s[i + 1] == s[i..i + 3][1] && s[i + 2] == s[i..i + 3][2];
    assert s == a + ([sep] + "" + ([sep] + "" + b));
    CompsOne("", b, sep);
    CompsOne("", [sep] + "" + b, sep);
    CompsConcat(a, [sep] + "" + ([sep] + "" + b), sep);
    CompsConcat(a, b, sep);
    CollapseDropsPair(Comps(a, sep), Comps(b, sep));
  }

  method ResolveTriples(path: string, sep: char) returns (s: string)
    requires Absolute(path, sep)
    ensures Absolute(s, sep) && !At(s, [sep, sep, sep], 0)
    ensures Collapse(Comps(s, sep)) == Collapse(Comps(path, sep))
  {
    s := path;
    while true
      invariant Absolute(s, sep)
      invariant Collapse(Comps(s, sep)) == Collapse(Comps(path, sep))
      decreases |s|
    {
      var index := Find(s, [sep, sep, sep], 0);
      if index.None? {
        break;
      }
      TripleStep(s, index.value, sep);
      s := s[..index.value] + s[index.value + 2..];
    }
  }

  lemma LastComponentNonEmpty(a: string, sep: char)
    requires Absolute(a, sep) && a[|a| - 1] != sep
    ensures var cs := Comps(a, sep); cs[|cs| - 1] != ""
  {
    var cs := Comps(a, sep);
    var i := ComponentOccurs(a, |cs| - 1, sep);
    assert a[i] == a[i..i + 1 + |cs[|cs| - 1]|][0];
  }

  lemma FirstDoubleFollowsComponent(s: string, i: nat, sep: char)
    requires Absolute(s, sep) && !At(s, [sep, sep, sep], 0)
    requires i >= 1 && At(s, [sep, sep], i) && forall j: nat | 1 <= j < i :: !At(s, [sep, sep], j)
    ensures i >= 2 && s[i - 1] != sep && s[i] == s[i + 1] == sep
  {
    assert s[i] == s[i..i + 2][0] && s[i + 1] == s[i..i + 2][1];
    assert |s| >= 3 && s[0..3] == [s[0], s[1], s[2]];
    if i > 1 && s[i - 1] == sep {
      assert s[i - 1..i + 1] == [sep, sep] && At(s, [sep, sep], i - 1);
    }
  }

  lemma DoubleStep(s: string, i: nat, sep: char)
    requires Absolute(s, sep) && 2 <= i && i + 1 < |s| && s[i - 1] != sep && s[i] == s[i + 1] == sep
    ensures var s' := s[..i] + s[i + 1..]; Absolute(s', sep) && Collapse(Comps(s', sep)) == Collapse(Comps(s, sep))
  {
    var a, b := s[..i], s[i + 1..];
    assert a[|a| - 1] != sep;
    assert s == a + ([sep] + "" + b);
    CompsOne("", b, sep);
    CompsConcat(a, [sep] + "" + b, sep);
    CompsConcat(a, b, sep);
    LastComponentNonEmpty(a, sep);
    CollapseDropsOne(Comps(a, sep), Comps(b, sep));
  }

  lemma DoubleStepMakesNoTriple(s: string, i: nat, sep: char)
    requires !At(s, [sep, sep, sep], 0) && 2 <= i < |s| && s[i - 1] != sep
    ensures !At(s[..i] + s[i + 1..], [sep, sep, sep], 0)
  {
    var s' := s[..i] + s[i + 1..];
    assert s'[i - 1] == s[i - 1];
    if i == 2 {
      assert |s'| >= 3 ==> s'[0..3][1] != sep;
    } else {
      assert s'[..3] == s[..3];
    }
  }

  /** No component but the last may be w. */
  predicate NotInside(cs: seq<string>, w: string) {
    forall i | 0 <= i < |cs| - 1 :: cs[i] != w
  }

  /** Where "/w/" does not occur, w is not a component, except perhaps the last. */
  lemma NoOccurrenceInside(s: string, w: string, from: nat, sep: char)
    requires Led(s, sep) && from <= 1 && forall j: nat | from <= j :: !At(s, [sep] + w + [sep], j)
    ensures forall k | from <= k < |Comps(s, sep)| - 1 :: Comps(s, sep)[k] != w
  {
    var cs := Comps(s, sep);
    forall k | from <= k < |cs| - 1 ensures cs[k] != w {
      var i := ComponentOccurs(s, k, sep);
      var n := i + 1 + |cs[k]|;
      assert s[i..n + 1] == s[i..n] + [sep];
      assert At(s, [sep] + cs[k] + [sep], i);
    }
  }

  lemma NoDoubles(s: string, sep: char)
    requires Absolute(s, sep) && forall j: nat | 1 <= j :: !At(s, [sep, sep], j)
    ensures Collapse(Comps(s, sep)) == Comps(s, sep)
  {
    assert [sep] + "" + [sep] == [sep, sep];
    NoOccurrenceInside(s, "", 1, sep);
    CollapseFixed(Comps(s, sep));
  }

  method ResolveDoubles(path: string, sep: char) returns (s: string)
    requires Absolute(path, sep) && !At(path, [sep, sep, sep], 0)
    ensures Absolute(s, sep) && Comps(s, sep) == Collapse(Comps(path, sep))
  {
    s := path;
    while true
      invariant Absolute(s, sep) && !At(s, [sep, sep, sep], 0)
      invariant Collapse(Comps(s, sep)) == Collapse(Comps(path, sep))
      decreases |s|
    {
      var index := Find(s, [sep, sep], 1);
      if index.None? {
        break;
      }
      FirstDoubleFollowsComponent(s, index.value, sep);
      DoubleStep(s, index.value, sep);
      DoubleStepMakesNoTriple(s, index.value, sep);
      s := s[..index.value] + s[index.value + 1..];
    }
    NoDoubles(s, sep);
  }

  lemma InFrontOfSeparator(s: string, u: string, i: nat, sep: char)
    requires At(s, u + [sep], i)
    ensures At(s, u, i) && s[i + |u|] == sep
  {
    var n := i + |u|;
    assert s[n] == s[i..n + 1][|u|];
    assert s[i..n] == s[i..n + 1][..|u|];
  }

  /** The components around an occurrence of "/w/". */
  lemma Occurrence(s: string, w: string, i: nat, n: nat, sep: char)
    requires Led(s, sep) && Free(w, sep) && At(s, [sep] + w, i) && n == i + 1 + |w| < |s| && s[n] == sep
    ensures Led(s[..i], sep) && Absolute(s[n..], sep)
    ensures Comps(s, sep) == Comps(s[..i], sep) + [w] + Comps(s[n..], sep)
    ensures Led(s[..i] + s[n..], sep) && Comps(s[..i] + s[n..], sep) == Comps(s[..i], sep) + Comps(s[n..], sep)
  {
    OccurrenceIsComponent(s, w, i, n, sep);
    CompsConcat(s[..i], s[n..], sep);
  }

  lemma DotStep(s: string, i: nat, sep: char)
    requires Absolute(s, sep) && sep != '.' && At(s, [sep] + "." + [sep], i)
    ensures var s' := s[..i] + s[i + 2..]; Absolute(s', sep) && Eval([], Comps(s', sep)) == Eval([], Comps(s, sep))
  {
    InFrontOfSeparator(s, [sep] + ".", i, sep);
    Occurrence(s, ".", i, i + 2, sep);
    EvalDropsDot(Comps(s[..i], sep), Comps(s[i + 2..], sep));
  }

  method ResolveDots(path: string, sep: char) returns (s: string)
    requires Absolute(path, sep) && sep != '.'
    ensures Absolute(s, sep) && NotInside(Comps(s, sep), ".")
    ensures Eval([], Comps(s, sep)) == Eval([], Comps(path, sep))
  {
    s := path;
    while true
      invariant Absolute(s, sep)
      invariant Eval([], Comps(s, sep)) == Eval([], Comps(path, sep))
      decreases |s|
    {
      var index := Find(s, [sep] + "." + [sep], 0);
      if index.None? {
        break;
      }
      DotStep(s, index.value, sep);
      s := s[..index.value] + s[index.value + 2..];
    }
    NoOccurrenceInside(s, ".", 0, sep);
  }

  /** The last separator before i starts the last component of s[..i]. */
  lemma LastComponent(s: string, i: nat, j: nat, sep: char)
    requires Absolute(s, sep) && j < i <= |s| && s[j] == sep && Free(s[j + 1..i], sep)
    ensures Led(s[..i], sep) && Led(s[..j], sep)
    ensures Comps(s[..i], sep) == Comps(s[..j], sep) + [s[j + 1..i]]
  {
    var a := s[..i];
    assert a[j..i] == [sep] + s[j + 1..i] && a[..j] == s[..j] && a[i..] == "";
    OccurrenceIsComponent(a, s[j + 1..i], j, i, sep);
  }

  lemma LastSeparatorBefore(s: string, i: nat, j: nat, sep: char)
    requires j < i <= |s| && At(s, [sep], j) && forall k: nat | j < k <= i - 1 :: !At(s, [sep], k)
    ensures s[j] == sep && Free(s[j + 1..i], sep)
  {
    assert s[j] == s[j..j + 1][0];
    forall k: nat | j < k < i ensures s[k] != sep {
      assert !At(s, [sep], k);
      assert s[k..k + 1] == [s[k]];
    }
  }

  method ResolveDotDots(path: string, sep: char) returns (r: Option<string>)
    requires Absolute(path, sep) && sep != '.' && NotInside(Comps(path, sep), ".")
    ensures r.None? ==> Eval([], Comps(path, sep)) == None
    ensures r.Some? ==> Absolute(r.value, sep)
    ensures r.Some? ==> NotInside(Comps(r.value, sep), ".") && NotInside(Comps(r.value, sep), "..")
    ensures r.Some? ==> Eval([], Comps(r.value, sep)) == Eval([], Comps(path, sep))
  {
    var s := path;
    while true
      invariant Absolute(s, sep) && NotInside(Comps(s, sep), ".")
      invariant Eval([], Comps(s, sep)) == Eval([], Comps(path, sep))
      decreases |s|
    {
      var index := Find(s, [sep] + ".." + [sep], 0);
      if index.None? {
        break;
      }
      var i := index.value;
      InFrontOfSeparator(s, [sep] + "..", i, sep);
      Occurrence(s, "..", i, i + 3, sep);
      if i == 0 {
        return None;
      }
      var index2 := FindBack(s, [sep], i - 1);
      assert At(s, [sep], 0);
      var j := index2.value;
      LastSeparatorBefore(s, i, j, sep);
      DotDotStep(s, i, j, sep);
      s := s[..j] + s[i + 3..];
    }
    NoOccurrenceInside(s, "..", 0, sep);
    return Some(s);
  }

  lemma NotInsideAfterCancelling(a: seq<string>, c: string, d: string, b: seq<string>, w: string)
    requires b != [] && NotInside(a + [c] + [d] + b, w)
    ensures NotInside(a + b, w) && c != w
  {
    var cs := a + [c] + [d] + b;
    assert cs[|a|] == c;
    forall k | 0 <= k < |a + b| - 1 ensures (a + b)[k] != w {
      assert (a + b)[k] == cs[if k < |a| then k else k + 2];
    }
  }

  lemma FirstDotDotFollowsOther(s: string, i: nat, j: nat, sep: char)
    requires At(s, [sep] + ".." + [sep], i) && forall k: nat | k < i :: !At(s, [sep] + ".." + [sep], k)
    requires j < i && s[j] == sep
    ensures s[j + 1..i] != ".."
  {
    assert s[i] == s[i..i + 4][0];
    assert s[j..i + 1] == [sep] + s[j + 1..i] + [sep];
    assert !At(s, [sep] + ".." + [sep], j);
  }

  lemma DotDotStep(s: string, i: nat, j: nat, sep: char)
    requires Absolute(s, sep) && sep != '.' && NotInside(Comps(s, sep), ".")
    requires At(s, [sep] + ".." + [sep], i) && forall k: nat | k < i :: !At(s, [sep] + ".." + [sep], k)
    requires j < i && s[j] == sep && Free(s[j + 1..i], sep)
    ensures var s' := s[..j] + s[i + 3..];
            Absolute(s', sep) && NotInside(Comps(s', sep), ".") && Eval([], Comps(s', sep)) == Eval([], Comps(s, sep))
  {
    InFrontOfSeparator(s, [sep] + "..", i, sep);
    Occurrence(s, "..", i, i + 3, sep);
    LastComponent(s, i, j, sep);
    CompsConcat(s[..j], s[i + 3..], sep);
    FirstDotDotFollowsOther(s, i, j, sep);
    var a, c, b := Comps(s[..j], sep), s[j + 1..i], Comps(s[i + 3..], sep);
    NotInsideAfterCancelling(a, c, "..", b, ".");
    EvalCancels(a, c, b);
  }

  // the two endings

  lemma EndsWithComponent(s: string, w: string, sep: char)
    requires Absolute(s, sep) && Free(w, sep)
    ensures var cs := Comps(s, sep); var i := |s| - 1 - |w|;
            (i >= 0 && At(s, [sep] + w, i)) <==> cs[|cs| - 1] == w
    ensures var i := |s| - 1 - |w|;
            i >= 0 && At(s, [sep] + w, i) ==> Led(s[..i], sep) && Comps(s, sep) == Comps(s[..i], sep) + [w]
  {
    var cs := Comps(s, sep);
    var i := |s| - 1 - |w|;
    if i >= 0 && At(s, [sep] + w, i) {
      OccurrenceIsComponent(s, w, i, |s|, sep);
    }
    var k := ComponentOccurs(s, |cs| - 1, sep);
  }

  method ResolveFinalDot(path: string, sep: char) returns (s: string)
    requires Absolute(path, sep) && sep != '.'
    requires NotInside(Comps(path, sep), ".") && NotInside(Comps(path, sep), "..")
    ensures Led(s, sep) && NotInside(Comps(s, sep), "..") && "." !in Comps(s, sep)
    ensures Eval([], Comps(s, sep)) == Eval([], Comps(path, sep))
  {
    s := path;
    EndsWithComponent(s, ".", sep);
    var index := RFind(s, [sep] + ".");
    if index.Some? && index.value == |s| - 2 {
      FinalDotDrops(Comps(s[..index.value], sep));
      s := s[..index.value];
    } else {
      NotAtEnd(Comps(s, sep), ".");
    }
  }

  lemma NotAtEnd(cs: seq<string>, w: string)
    requires NotInside(cs, w) && (cs != [] ==> cs[|cs| - 1] != w)
    ensures w !in cs
  {
  }

  lemma FinalDotDrops(a: seq<string>)
    requires NotInside(a + ["."], ".") && NotInside(a + ["."], "..")
    ensures NotInside(a, "..") && "." !in a && Eval([], a + ["."]) == Eval([], a)
  {
    var cs := a + ["."];
    assert forall i | 0 <= i < |a| :: a[i] == cs[i];
    EvalDropsDot(a, []);
    assert cs == a + ["."] + [] && a == a + [];
  }

  /** None stands for the early return of the root. */
  method ResolveFinalDotDot(path: string, sep: char) returns (r: Option<string>)
    requires Led(path, sep) && sep != '.'
    requires NotInside(Comps(path, sep), "..") && "." !in Comps(path, sep)
    ensures r.None? ==> Eval([], Comps(path, sep)) == None
    ensures r.Some? ==> Led(r.value, sep) && Eval([], Comps(path, sep)) == Some(Comps(r.value, sep))
  {
    var s := path;
    var index := RFind(s, [sep] + "..");
    if index.Some? && index.value == |s| - 3 {
      var i := index.value;
      EndsWithComponent(s, "..", sep);
      if i == 0 {
        return None;
      }
      var index2 := FindBack(s, [sep], i - 1);
      assert At(s, [sep], 0);
      var j := index2.value;
      LastSeparatorBefore(s, i, j, sep);
      FinalDotDotStep(s, j, sep);
      s := s[..j];
    } else {
      WithoutFinalDotDot(s, sep);
    }
    return Some(s);
  }

  /** Cutting off the last two components, the second of which is "..". */
  lemma FinalDotDotStep(s: string, j: nat, sep: char)
    requires |s| >= 3 && Absolute(s, sep) && sep != '.' && At(s, [sep] + "..", |s| - 3)
    requires NotInside(Comps(s, sep), "..") && "." !in Comps(s, sep)
    requires j < |s| - 3 && s[j] == sep && Free(s[j + 1..|s| - 3], sep)
    ensures Led(s[..j], sep) && Eval([], Comps(s, sep)) == Some(Comps(s[..j], sep))
  {
    var i := |s| - 3;
    EndsWithComponent(s, "..", sep);
    LastComponent(s, i, j, sep);
    FinalDotDotPops(Comps(s[..j], sep), s[j + 1..i]);
  }

  lemma WithoutFinalDotDot(s: string, sep: char)
    requires Led(s, sep) && sep != '.' && !(|s| >= 3 && At(s, [sep] + "..", |s| - 3))
    requires NotInside(Comps(s, sep), "..") && "." !in Comps(s, sep)
    ensures Eval([], Comps(s, sep)) == Some(Comps(s, sep))
  {
    var cs := Comps(s, sep);
    if s != "" {
      EndsWithComponent(s, "..", sep);
    }
    EvalOfPlain(cs);
  }

  lemma EvalOfAllPlain(cs: seq<string>)
    requires forall i | 0 <= i < |cs| :: Plain(cs[i])
    ensures Eval([], cs) == Some(cs)
  {
    EvalPlain([], cs);
    assert [] + cs == cs;
  }

  lemma EvalOfPlain(cs: seq<string>)
    requires "." !in cs && NotInside(cs, "..") && (cs != [] ==> cs[|cs| - 1] != "..")
    ensures Eval([], cs) == Some(cs)
  {
    NotAtEnd(cs, "..");
    EvalPlain([], cs);
    assert [] + cs == cs;
  }

  lemma FinalDotDotPops(a: seq<string>, c: string)
    requires NotInside(a + [c] + [".."], "..") && "." !in a + [c] + [".."]
    ensures Eval([], a + [c] + [".."]) == Some(a)
  {
    var cs := a + [c];
    forall i | 0 <= i < |cs| ensures Plain(cs[i]) {
      assert (cs + [".."])[i] == cs[i];
    }
    EvalPlain([], cs);
    EvalConcat([], cs, [".."]);
    assert [] + cs == cs && cs[..|cs| - 1] == a;
  }

  /** The whole program. The separator may be any character but '.' and the terminator of C strings. */
  method Normalize(path: string, sep: char) returns (r: string)
    requires sep != '.' && sep != '\0'
    ensures r == Normalized(path, sep)
  {
    var s := ReplaceBackslashes(path, sep);
    var slashAdded := false;
    if s == "" || s[0] != sep {
      s := [sep] + s;
      slashAdded := true;
    }
    s := ResolveTriples(s, sep);
    s := ResolveDoubles(s, sep);
    s := ResolveDots(s, sep);
    var t := ResolveDotDots(s, sep);
    if t.None? {
      return if slashAdded then "" else [sep];
    }
    s := ResolveFinalDot(t.value, sep);
    t := ResolveFinalDotDot(s, sep);
    if t.None? {
      return if slashAdded then "" else [sep];
    }
    s := t.value;
    JoinComps(s, sep);
    if !slashAdded && s == "" {
      s := [sep];
    }
    if !slashAdded || s == "" {
      return s;
    }
    return s[1..];
  }

  // ------------------------------------------------- what the result looks like

  /** What evaluation leaves on the stack: no dots, and empty components only at the two ends. */
  predicate Tidy(cs: seq<string>, sep: char) {
    && AllFree(cs, sep) && AllFree(cs, '\\')
    && (forall i | 0 <= i < |cs| :: Plain(cs[i]))
    && (forall i | 0 < i < |cs| - 1 :: cs[i] != "")
  }

  lemma {:induction false} NonEmptyIsNonEmpty(cs: seq<string>)
    ensures forall i | 0 <= i < |NonEmpty(cs)| :: NonEmpty(cs)[i] != "" && NonEmpty(cs)[i] in cs
  {
    if cs != [] {
      NonEmptyIsNonEmpty(cs[1..]);
    }
  }

  predicate StackItem(stack: seq<string>, i: nat, raw: seq<string>, lead: seq<string>)
    requires i < |stack|
  {
    Plain(stack[i]) && (stack[i] == "" || stack[i] in raw) && (i > 0 || lead == [] ==> stack[i] != "")
  }

  predicate StackItems(stack: seq<string>, raw: seq<string>, lead: seq<string>) {
    forall i | 0 <= i < |stack| :: StackItem(stack, i, raw, lead)
  }

  /** Every element of the final stack comes from the initial one or was pushed, and ".."s pop from
      the top only. */
  lemma {:induction false} EvalStack(stack: seq<string>, cs: seq<string>, raw: seq<string>, lead: seq<string>)
    requires forall i | 0 <= i < |cs| :: cs[i] != "" && cs[i] in raw
    requires StackItems(stack, raw, lead)
    ensures var r := Eval(stack, cs); r.Some? ==> StackItems(r.value, raw, lead)
    decreases |cs|
  {
    if cs != [] {
      if cs[0] == "." {
        EvalStack(stack, cs[1..], raw, lead);
      } else if cs[0] == ".." {
        if stack != [] {
          var popped := stack[..|stack| - 1];
          assert forall i | 0 <= i < |popped| :: StackItem(stack, i, raw, lead) && popped[i] == stack[i];
          EvalStack(popped, cs[1..], raw, lead);
        }
      } else {
        var pushed := stack + [cs[0]];
        assert forall i | 0 <= i < |stack| :: StackItem(stack, i, raw, lead) && pushed[i] == stack[i];
        EvalStack(pushed, cs[1..], raw, lead);
      }
    }
  }

  lemma FreeInside(s: string, sep: char, c: char)
    requires Led(s, sep) && Free(s, c)
    ensures AllFree(Comps(s, sep), c)
    decreases |s|
  {
    if s != "" {
      var n := NextSep(s, sep, 1);
      FreeInside(s[n..], sep, c);
    }
  }

  lemma RootedHasNoBackslash(path: string, sep: char)
    ensures AllFree(Comps(Rooted(path, sep), sep), '\\')
  {
    if sep != '\\' {
      FreeInside(Rooted(path, sep), sep, '\\');
    }
  }

  lemma RelativeHasShortRun(path: string, sep: char)
    requires IsRelative(path, sep)
    ensures LeadingRun(Comps(Rooted(path, sep), sep)) == 1
  {
    var s := Rooted(path, sep);
    var cs := Comps(s, sep);
    var n := NextSep(s, sep, 1);
    if |s| > 1 {
      assert cs[0] == s[1..n] != "";
    }
  }

  lemma FreeLikeMembers(cs: seq<string>, raw: seq<string>, c: char)
    requires AllFree(raw, c) && forall i | 0 <= i < |cs| :: cs[i] == "" || cs[i] in raw
    ensures AllFree(cs, c)
  {
  }

  lemma InnerStack(raw: seq<string>, lead: seq<string>)
    requires lead == [] || lead == [""]
    ensures var r := Eval(lead, NonEmpty(raw)); r.Some? ==> StackItems(r.value, raw, lead)
  {
    NonEmptyIsNonEmpty(raw);
    EvalStack(lead, NonEmpty(raw), raw, lead);
  }

  lemma EvalCollapsed(raw: seq<string>) returns (lead: seq<string>, trail: seq<string>)
    requires raw != []
    ensures lead == (if LeadingRun(raw) % 2 == 0 then [""] else [])
    ensures trail == [] || trail == [""]
    ensures var inner := Eval(lead, NonEmpty(raw));
            Eval([], Collapse(raw)) == if inner.None? then None else Some(inner.value + trail)
  {
    lead := if LeadingRun(raw) % 2 == 0 then [""] else [];
    trail := if raw[|raw| - 1] == "" then [""] else [];
    EvalPlain([], lead);
    assert [] + lead == lead;
    EvalConcat([], lead, NonEmpty(raw));
    EvalConcat([], lead + NonEmpty(raw), trail);
    var inner := Eval(lead, NonEmpty(raw));
    if inner.Some? {
      EvalPlain(inner.value, trail);
    }
  }

  lemma EvaluationIsTidy(path: string, sep: char)
    ensures var r := Eval([], Collapse(Comps(Rooted(path, sep), sep)));
            && (r.Some? ==> Tidy(r.value, sep))
            && (r.Some? && IsRelative(path, sep) && r.value != [] && r.value[0] == "" ==> r.value == [""])
  {
    var raw := Comps(Rooted(path, sep), sep);
    RootedHasNoBackslash(path, sep);
    if IsRelative(path, sep) {
      RelativeHasShortRun(path, sep);
    }
    var lead, trail := EvalCollapsed(raw);
    InnerStack(raw, lead);
    var inner := Eval(lead, NonEmpty(raw));
    if inner.Some? {
      StackIsTidy(inner.value, trail, raw, lead, sep);
    }
  }

  lemma StackIsTidy(stack: seq<string>, trail: seq<string>, raw: seq<string>, lead: seq<string>, sep: char)
    requires StackItems(stack, raw, lead)
    requires AllFree(raw, sep) && AllFree(raw, '\\') && (trail == [] || trail == [""])
    ensures var cs := stack + trail;
            Tidy(cs, sep) && (lead == [] && cs != [] && cs[0] == "" ==> cs == [""])
  {
    var cs := stack + trail;
    assert forall i | 0 <= i < |stack| :: StackItem(stack, i, raw, lead) && cs[i] == stack[i];
    FreeLikeMembers(cs, raw, sep);
    FreeLikeMembers(cs, raw, '\\');
  }

  lemma {:induction false} JoinHasNoBackslash(cs: seq<string>, sep: char)
    requires AllFree(cs, '\\')
    ensures Slashes(Join(cs, sep), sep) == Join(cs, sep)
  {
    if cs != [] {
      assert AllFree(cs[1..], '\\');
      JoinHasNoBackslash(cs[1..], sep);
      var rest := Join(cs[1..], sep);
      assert forall i | 0 <= i < |rest| :: rest[i] == Slashes(rest, sep)[i];
      assert Join(cs, sep) == [sep] + (cs[0] + rest);
    }
  }

  lemma SlashesTail(s: string, sep: char)
    requires s != "" && Slashes(s, sep) == s
    ensures Slashes(s[1..], sep) == s[1..]
  {
    assert forall i | 0 <= i < |s| - 1 :: s[1..][i] == s[i + 1] == Slashes(s, sep)[i + 1];
  }

  lemma ShownRelative(cs: seq<string>, sep: char)
    requires cs != [] && AllFree(cs, sep) && AllFree(cs, '\\') && (cs[0] != "" || cs == [""])
    ensures var r := Join(cs, sep)[1..]; IsRelative(r, sep) && Rooted(r, sep) == Join(cs, sep)
  {
    var r := Join(cs, sep)[1..];
    JoinHasNoBackslash(cs, sep);
    SlashesTail(Join(cs, sep), sep);
    JoinCons(cs[0], cs[1..], sep);
    assert [cs[0]] + cs[1..] == cs;
    assert r == cs[0] + Join(cs[1..], sep);
    assert [sep] + r == Join(cs, sep);
  }

  /** The normalised path of a non-empty stack has that stack as its components. */
  lemma ShownIsRooted(cs: seq<string>, relative: bool, sep: char)
    requires cs != [] && Tidy(cs, sep) && (relative ==> cs[0] != "" || cs == [""])
    ensures var r := Shown(Some(cs), relative, sep);
            IsRelative(r, sep) == relative && Rooted(r, sep) == Join(cs, sep) && Comps(Rooted(r, sep), sep) == cs
  {
    CompsJoin(cs, sep);
    if relative {
      ShownRelative(cs, sep);
    } else {
      JoinHasNoBackslash(cs, sep);
    }
  }

  /** The root is what the single empty component shows as. */
  lemma RootIsShown(relative: bool, sep: char)
    ensures Shown(Some([""]), relative, sep) == Root(relative, sep)
  {
    assert Join([""], sep) == [sep] + "" + Join([], sep) == [sep];
  }

  /** Every result is a tidy, non-empty list of components, shown. */
  lemma NormalizedIsShown(path: string, sep: char) returns (cs: seq<string>)
    ensures cs != [] && Tidy(cs, sep) && (IsRelative(path, sep) ==> cs[0] != "" || cs == [""])
    ensures Normalized(path, sep) == Shown(Some(cs), IsRelative(path, sep), sep)
  {
    EvaluationIsTidy(path, sep);
    var relative := IsRelative(path, sep);
    var st := Eval([], Collapse(Comps(Rooted(path, sep), sep)));
    RootIsShown(relative, sep);
    cs := if st.None? || st.value == [] then [""] else st.value;
  }

  lemma TidyIsFixed(cs: seq<string>, sep: char)
    requires cs != [] && Tidy(cs, sep)
    ensures Eval([], Collapse(cs)) == Some(cs)
  {
    CollapseFixed(cs);
    EvalOfAllPlain(cs);
  }

  /** Normalizing twice is normalizing once. */
  lemma NormalizeIsIdempotent(path: string, sep: char)
    ensures Normalized(Normalized(path, sep), sep) == Normalized(path, sep)
  {
    var cs := NormalizedIsShown(path, sep);
    ShownIsRooted(cs, IsRelative(path, sep), sep);
    TidyIsFixed(cs, sep);
  }

  lemma ShownIsClean(cs: seq<string>, relative: bool, sep: char)
    requires cs != [] && Tidy(cs, sep) && (relative ==> cs[0] != "" || cs == [""])
    ensures forall i: nat | At(Shown(Some(cs), relative, sep), [sep, sep], i) :: i == 0 && !relative
  {
    CompsJoin(cs, sep);
    var full := Join(cs, sep);
    var r := Shown(Some(cs), relative, sep);
    forall i: nat | At(r, [sep, sep], i) ensures i == 0 && !relative {
      var j := if relative then i + 1 else i;
      assert full[j..j + 2] == r[i..i + 2];
      if j > 0 {
        DoubleIsInside(full, cs, j, sep);
      }
    }
  }

  /** A normalised path has no "." or ".." among its components and no two separators in a row,
      except that an absolute one may begin with two. */
  lemma NormalizedIsClean(path: string, sep: char)
    ensures var r := Normalized(path, sep); var cs := Comps(Rooted(r, sep), sep);
            && (forall i | 0 <= i < |cs| :: Plain(cs[i]))
            && (forall i: nat | At(r, [sep, sep], i) :: i == 0 && !IsRelative(path, sep))
            && IsRelative(r, sep) == IsRelative(path, sep)
  {
    var cs := NormalizedIsShown(path, sep);
    ShownIsRooted(cs, IsRelative(path, sep), sep);
    ShownIsClean(cs, IsRelative(path, sep), sep);
  }

  lemma DoubleIsInside(s: string, cs: seq<string>, j: nat, sep: char)
    requires Absolute(s, sep) && cs == Comps(s, sep) && j > 0 && At(s, [sep, sep], j)
    ensures exists k :: 0 < k < |cs| - 1 && cs[k] == ""
  {
    assert s[j] == s[j..j + 2][0] && s[j + 1] == s[j..j + 2][1];
    assert s[j..j + 1] == [sep] + "";
    OccurrenceIsComponent(s, "", j, j + 1, sep);
    assert cs[|Comps(s[..j], sep)|] == "";
  }

  // --------------------------------------------- evaluation by counting and matching

  function DotDots(cs: seq<string>): nat {
    if cs == [] then 0 else (if cs[0] == ".." then 1 else 0) + DotDots(cs[1..])
  }

  function PlainOnes(cs: seq<string>): nat {
    if cs == [] then 0 else (if Plain(cs[0]) then 1 else 0) + PlainOnes(cs[1..])
  }

  /** Some prefix goes up more often than down. */
  ghost predicate Underflows(cs: seq<string>, depth: nat) {
    exists k: nat :: k <= |cs| && GoesUp(cs, k, depth)
  }

  predicate GoesUp(cs: seq<string>, k: nat, depth: nat) {
    k <= |cs| && DotDots(cs[..k]) > PlainOnes(cs[..k]) + depth
  }

  lemma PrefixCounts(cs: seq<string>, k: nat)
    requires 0 < k <= |cs|
    ensures DotDots(cs[..k]) == (if cs[0] == ".." then 1 else 0) + DotDots(cs[1..][..k - 1])
    ensures PlainOnes(cs[..k]) == (if Plain(cs[0]) then 1 else 0) + PlainOnes(cs[1..][..k - 1])
  {
    assert cs[..k][1..] == cs[1..][..k - 1];
  }

  lemma UnderflowsLater(cs: seq<string>, depth: nat, depth': nat)
    requires cs != [] && depth + (if Plain(cs[0]) then 1 else 0) == depth' + (if cs[0] == ".." then 1 else 0)
    ensures Underflows(cs, depth) <==> Underflows(cs[1..], depth')
  {
    if k: nat :| k <= |cs| && GoesUp(cs, k, depth) {
      PrefixCounts(cs, k);
      assert GoesUp(cs[1..], k - 1, depth');
    }
    if k: nat :| k <= |cs[1..]| && GoesUp(cs[1..], k, depth') {
      PrefixCounts(cs, k + 1);
      assert GoesUp(cs, k + 1, depth);
    }
  }

  /** Evaluation fails exactly if some prefix goes up beyond the stack, and else leaves as many components
      as the counts say. */
  lemma {:induction false} EvalCounts(stack: seq<string>, cs: seq<string>)
    ensures Eval(stack, cs).None? <==> Underflows(cs, |stack|)
    ensures Eval(stack, cs).Some? ==> |Eval(stack, cs).value| + DotDots(cs) == |stack| + PlainOnes(cs)
    decreases |cs|
  {
    if cs == [] {
      assert forall k: nat | k <= |cs| :: !GoesUp(cs, k, |stack|);
    } else if cs[0] == "." {
      EvalCounts(stack, cs[1..]);
      UnderflowsLater(cs, |stack|, |stack|);
    } else if cs[0] == ".." && stack == [] {
      PrefixCounts(cs, 1);
      assert GoesUp(cs, 1, 0);
    } else if cs[0] == ".." {
      EvalCounts(stack[..|stack| - 1], cs[1..]);
      UnderflowsLater(cs, |stack|, |stack| - 1);
    } else {
      EvalCounts(stack + [cs[0]], cs[1..]);
      UnderflowsLater(cs, |stack|, |stack| + 1);
    }
  }

  /** The components of a path after runs of separators have been collapsed. */
  function Collapsed(path: string, sep: char): seq<string> {
    Collapse(Comps(Rooted(path, sep), sep))
  }

  /** A path that goes up from its root anywhere becomes the root, whatever follows; any other has as many
      components in the end as it has plain ones less the number of its ".."s. */
  lemma GoingUpFromTheRoot(path: string, sep: char)
    ensures var cs := Collapsed(path, sep);
            if Underflows(cs, 0) then
              Normalized(path, sep) == if IsRelative(path, sep) then "" else [sep]
            else
              exists st ::
                && |st| + DotDots(cs) == PlainOnes(cs)
                && Normalized(path, sep) == Shown(Some(st), IsRelative(path, sep), sep)
  {
    EvalCounts([], Collapsed(path, sep));
  }

  /** How many ".."s of cs find no component to cancel, matching each with the nearest one before it. */
  function Unmatched(cs: seq<string>): nat {
    if cs == [] then 0
    else if cs[0] == ".." then Unmatched(cs[1..]) + 1
    else if cs[0] == "." || Unmatched(cs[1..]) == 0 then Unmatched(cs[1..])
    else Unmatched(cs[1..]) - 1
  }

  /** The components that no ".." cancels, in order. */
  function Kept(cs: seq<string>): seq<string> {
    if cs == [] then []
    else (if Plain(cs[0]) && Unmatched(cs[1..]) == 0 then [cs[0]] else []) + Kept(cs[1..])
  }

  /** A stack of which the last `unmatched` are taken off, and `kept` put on. */
  function Matched(stack: seq<string>, unmatched: nat, kept: seq<string>): Option<seq<string>> {
    if unmatched > |stack| then None else Some(stack[..|stack| - unmatched] + kept)
  }

  lemma MatchPops(stack: seq<string>, unmatched: nat, kept: seq<string>)
    requires stack != []
    ensures Matched(stack, unmatched + 1, kept) == Matched(stack[..|stack| - 1], unmatched, kept)
  {
    if unmatched < |stack| {
      assert stack[..|stack| - 1][..|stack| - 1 - unmatched] == stack[..|stack| - (unmatched + 1)];
    }
  }

  lemma MatchPushes(stack: seq<string>, c: string, unmatched: nat, kept: seq<string>)
    ensures unmatched > 0 ==> Matched(stack + [c], unmatched, kept) == Matched(stack, unmatched - 1, kept)
    ensures Matched(stack + [c], 0, kept) == Matched(stack, 0, [c] + kept)
  {
    assert (stack + [c])[..|stack| + 1] + kept == stack[..|stack|] + ([c] + kept);
    if 0 < unmatched <= |stack| + 1 {
      assert (stack + [c])[..|stack| + 1 - unmatched] == stack[..|stack| - (unmatched - 1)];
    }
  }

  /** Matching from the right comes to the same as evaluating from the left. */
  lemma {:induction false} EvalIsMatching(stack: seq<string>, cs: seq<string>)
    ensures Eval(stack, cs) == Matched(stack, Unmatched(cs), Kept(cs))
    decreases |cs|
  {
    if cs == [] {
      assert stack[..|stack|] + [] == stack;
    } else {
      var kept := Kept(cs[1..]);
      assert [] + kept == kept;
      if cs[0] == "." {
        EvalIsMatching(stack, cs[1..]);
      } else if cs[0] == ".." {
        if stack != [] {
          EvalIsMatching(stack[..|stack| - 1], cs[1..]);
          MatchPops(stack, Unmatched(cs[1..]), kept);
        }
      } else {
        EvalIsMatching(stack + [cs[0]], cs[1..]);
        MatchPushes(stack, cs[0], Unmatched(cs[1..]), kept);
      }
    }
  }

  /** So the normalised path shows the components that no ".." cancels, or is the root if a ".." finds none. */
  lemma NormalizedKeepsUncancelled(path: string, sep: char)
    ensures var cs := Collapsed(path, sep);
            Normalized(path, sep)
              == Shown(if Unmatched(cs) > 0 then None else Some(Kept(cs)), IsRelative(path, sep), sep)
  {
    var cs := Collapsed(path, sep);
    EvalIsMatching([], cs);
    assert [] + Kept(cs) == Kept(cs);
  }

  lemma {:induction false} NonEmptyMembers(cs: seq<string>, w: string)
    ensures multiset(NonEmpty(cs))[w] == if w == "" then 0 else multiset(cs)[w]
  {
    if cs != [] {
      NonEmptyMembers(cs[1..], w);
      assert cs == [cs[0]] + cs[1..];
    }
  }

  /** Collapsing drops and adds only empty components. */
  lemma CollapseKeepsComponents(cs: seq<string>, w: string)
    requires cs != [] && w != ""
    ensures multiset(Collapse(cs))[w] == multiset(cs)[w]
  {
    NonEmptyMembers(cs, w);
  }

  // -------------------------------------------------- which paths are normal

  /** No "." or "..", no backslash, and two separators in a row only where an absolute path begins. */
  ghost predicate Clean(path: string, sep: char) {
    var cs := Comps(Rooted(path, sep), sep);
    && Slashes(path, sep) == path
    && (forall i | 0 <= i < |cs| :: Plain(cs[i]))
    && (forall i: nat | At(path, [sep, sep], i) :: i == 0 && !IsRelative(path, sep))
  }

  /** An empty component inside makes a double separator behind the first position. */
  lemma EmptyInsideIsDouble(s: string, k: nat, sep: char) returns (i: nat)
    requires Absolute(s, sep) && 0 < k < |Comps(s, sep)| - 1 && Comps(s, sep)[k] == ""
    ensures i > 0 && At(s, [sep, sep], i)
  {
    i := ComponentOccurs(s, k, sep);
    assert s[i..i + 1] == [sep] + "";
    assert s[i..i + 2] == s[i..i + 1] + [s[i + 1]] == [sep, sep];
  }

  lemma CleanIsTidy(path: string, sep: char)
    requires Clean(path, sep)
    ensures var cs := Comps(Rooted(path, sep), sep);
            Tidy(cs, sep) && (IsRelative(path, sep) ==> cs[0] != "" || cs == [""])
  {
    var s := Rooted(path, sep);
    var cs := Comps(s, sep);
    RootedHasNoBackslash(path, sep);
    if IsRelative(path, sep) {
      RelativeHasShortRun(path, sep);
    }
    forall k | 0 < k < |cs| - 1 ensures cs[k] != "" {
      if cs[k] == "" {
        var i := EmptyInsideIsDouble(s, k, sep);
        var j := if IsRelative(path, sep) then i - 1 else i;
        assert s == (if IsRelative(path, sep) then [sep] else []) + path;
        assert path[j..j + 2] == s[i..i + 2];
        assert At(path, [sep, sep], j);
      }
    }
  }

  lemma NormalizedHasNoBackslash(path: string, sep: char)
    ensures Slashes(Normalized(path, sep), sep) == Normalized(path, sep)
  {
    var cs := NormalizedIsShown(path, sep);
    JoinHasNoBackslash(cs, sep);
    if IsRelative(path, sep) {
      SlashesTail(Join(cs, sep), sep);
    }
  }

  lemma CleanIsFixed(path: string, sep: char)
    requires Clean(path, sep)
    ensures Normalized(path, sep) == path
  {
    CleanIsTidy(path, sep);
    TidyIsFixed(Comps(Rooted(path, sep), sep), sep);
    RootedIsShown(path, sep);
  }

  lemma RootedIsShown(path: string, sep: char)
    requires Slashes(path, sep) == path
    ensures Shown(Some(Comps(Rooted(path, sep), sep)), IsRelative(path, sep), sep) == path
  {
    JoinComps(Rooted(path, sep), sep);
    assert Rooted(path, sep) == (if IsRelative(path, sep) then [sep] else []) + path;
  }

  lemma NormalizedIsOfCleanForm(path: string, sep: char)
    ensures Clean(Normalized(path, sep), sep)
  {
    NormalizedIsClean(path, sep);
    NormalizedHasNoBackslash(path, sep);
  }

  /** Exactly the clean paths are left alone. */
  lemma CleanIffFixed(path: string, sep: char)
    ensures Clean(path, sep) <==> Normalized(path, sep) == path
  {
    NormalizedIsOfCleanForm(path, sep);
    if Clean(path, sep) {
      CleanIsFixed(path, sep);
    }
  }

  // leading separators

  function Seps(n: nat, sep: char): string {
    seq(n, _ => sep)
  }

  lemma {:induction false} CompsOfSeps(n: nat, name: string, sep: char)
    requires Free(name, sep)
    ensures Comps(Seps(n + 1, sep) + name, sep) == seq(n, _ => "") + [name]
    decreases n
  {
    var s := Seps(n + 1, sep) + name;
    if n == 0 {
      assert s == [sep] + name + "";
      CompsOne(name, "", sep);
    } else {
      var rest := Seps(n, sep) + name;
      CompsOfSeps(n - 1, name, sep);
      assert s == [sep] + "" + rest;
      CompsOne("", rest, sep);
      assert [""] + (seq(n - 1, _ => "") + [name]) == seq(n, _ => "") + [name];
    }
  }

  lemma {:induction false} CollapseOfEmpties(n: nat, name: string)
    requires name != ""
    ensures NonEmpty(seq(n, _ => "") + [name]) == [name] && LeadingEmpties(seq(n, _ => "") + [name]) == n
    decreases n
  {
    var cs := seq(n, _ => "") + [name];
    if n == 0 {
      assert cs == [name] && cs[1..] == [];
    } else {
      CollapseOfEmpties(n - 1, name);
      assert cs[1..] == seq(n - 1, _ => "") + [name];
    }
  }

  /** Separators in front of a name become one if they are odd in number, and two if they are even. */
  lemma LeadingSeparators(n: nat, name: string, sep: char)
    requires name != "" && Plain(name) && Free(name, sep) && Free(name, '\\')
    ensures Normalized(Seps(n, sep) + name, sep)
         == (if n == 0 then "" else if n % 2 == 1 then [sep] else [sep, sep]) + name
  {
    var m := if n == 0 then 0 else n - 1;
    var cs := (if m % 2 == 1 then [""] else []) + [name];
    CollapsedSeparators(n, m, name, sep);
    EvalOfAllPlain(cs);
    JoinOfName(name, sep);
  }

  lemma RootedSeparators(n: nat, m: nat, name: string, sep: char)
    requires name != "" && Free(name, sep) && Free(name, '\\') && m == if n == 0 then 0 else n - 1
    ensures Rooted(Seps(n, sep) + name, sep) == Seps(m + 1, sep) + name
    ensures IsRelative(Seps(n, sep) + name, sep) <==> n == 0
  {
    assert Slashes(Seps(n, sep) + name, sep) == Seps(n, sep) + name;
  }

  lemma CollapsedSeparators(n: nat, m: nat, name: string, sep: char)
    requires name != "" && Free(name, sep) && Free(name, '\\') && m == if n == 0 then 0 else n - 1
    ensures Collapsed(Seps(n, sep) + name, sep) == (if m % 2 == 1 then [""] else []) + [name]
    ensures IsRelative(Seps(n, sep) + name, sep) <==> n == 0
  {
    RootedSeparators(n, m, name, sep);
    CompsOfSeps(m, name, sep);
    CollapseOfEmpties(m, name);
  }

  lemma JoinOfName(name: string, sep: char)
    ensures Join([name], sep) == [sep] + name && Join([""] + [name], sep) == [sep, sep] + name
  {
    JoinCons(name, [], sep);
    JoinCons("", [name], sep);
    assert [name] + [] == [name];
  }
}
