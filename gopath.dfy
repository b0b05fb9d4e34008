/** Go's path.Clean and path.Join, which the HTTP client uses to build the ingest
    path. Clean works on the '/'-separated elements: empty and "." elements go,
    ".." removes the element before it (or stays, at the front of a relative
    path), and a rooted path keeps its leading '/'; an empty result is ".". */
module GoPath {
  import opened Text

  /** The stack after one more element of the path has been processed. */
  function Step(stack: seq<string>, elem: string, rooted: bool): seq<string> {
    if elem == "" || elem == "." then stack
    else if elem == ".." then
      if |stack| > 0 && stack[|stack| - 1] != ".." then stack[..|stack| - 1]
      else if rooted then stack
      else stack + [".."]
    else stack + [elem]
  }

  /** The elements that survive cleaning, in order. */
  function Reduce(elems: seq<string>, rooted: bool): seq<string> {
    if elems == [] then []
    else Step(Reduce(elems[..|elems| - 1], rooted), elems[|elems| - 1], rooted)
  }

  /** How a cleaned stack is written back as a path. */
  function Render(rooted: bool, stack: seq<string>): string {
    if rooted then "/" + Join(stack, '/')
    else if stack == [] then "."
    else Join(stack, '/')
  }

  /** path.Clean. */
  function Clean(p: string): string {
    if p == "" then "."
    else
      var rooted := p[0] == '/';
      Render(rooted, Reduce(Split(p, '/'), rooted))
  }

  /** The non-empty strings of `elems`, in order. */
  function NonEmpty(elems: seq<string>): (r: seq<string>)
    ensures forall e :: e in r <==> e in elems && e != ""
  {
    if elems == [] then []
    else (if elems[0] == "" then [] else [elems[0]]) + NonEmpty(elems[1..])
  }

  /** path.Join: the non-empty elements joined by '/', then cleaned; "" when every
      element is empty. */
  function PathJoin(elems: seq<string>): string {
    var parts := NonEmpty(elems);
    if parts == [] then "" else Clean(Join(parts, '/'))
  }

  /** One path element that cleaning leaves alone: non-empty, no '/', not "." or "..". */
  predicate Plain(s: string) {
    s != "" && '/' !in s && s != "." && s != ".."
  }

  /** A path element that path.Join either drops or keeps as it is. */
  predicate Segment(s: string) {
    s == "" || Plain(s)
  }

  /** The elements a Reduce leaves on its stack are plain, or "..". */
  predicate StackElement(s: string) {
    Plain(s) || s == ".."
  }

  lemma {:induction false} NonEmptyAll(elems: seq<string>)
    requires forall e :: e in elems ==> e != ""
    ensures NonEmpty(elems) == elems
  {
    if elems != [] {
      assert elems[0] in elems;
      assert forall e :: e in elems[1..] ==> e in elems;
      NonEmptyAll(elems[1..]);
    }
  }

  lemma {:induction false} NonEmptyAppend(a: seq<string>, b: seq<string>)
    ensures NonEmpty(a + b) == NonEmpty(a) + NonEmpty(b)
  {
    if a == [] {
      assert a + b == b;
    } else {
      assert (a + b)[0] == a[0] && (a + b)[1..] == a[1..] + b;
      NonEmptyAppend(a[1..], b);
    }
  }

  lemma {:induction false} ReduceStack(elems: seq<string>, rooted: bool)
    requires forall e :: e in elems ==> '/' !in e
    ensures forall s :: s in Reduce(elems, rooted) ==> StackElement(s)
  {
    if elems != [] {
      var init := elems[..|elems| - 1];
      assert forall e :: e in init ==> e in elems;
      ReduceStack(init, rooted);
      var st := Reduce(init, rooted);
      assert elems[|elems| - 1] in elems;
      if |st| > 0 {
        assert forall s :: s in st[..|st| - 1] ==> s in st;
      }
    }
  }

  /** Rooted paths never keep "..": it cannot climb above the root. */
  lemma {:induction false} ReduceRootedNoDotDot(elems: seq<string>)
    ensures ".." !in Reduce(elems, true)
  {
    if elems != [] {
      ReduceRootedNoDotDot(elems[..|elems| - 1]);
      var st := Reduce(elems[..|elems| - 1], true);
      if |st| > 0 {
        assert forall s :: s in st[..|st| - 1] ==> s in st;
      }
    }
  }

  /** Plain elements added at the end are pushed onto the stack unchanged. */
  lemma {:induction false} ReducePlain(elems: seq<string>, segs: seq<string>, rooted: bool)
    requires forall s :: s in segs ==> Plain(s)
    ensures Reduce(elems + segs, rooted) == Reduce(elems, rooted) + segs
    decreases |segs|
  {
    if segs == [] {
      assert elems + segs == elems;
    } else {
      var front := segs[..|segs| - 1];
      assert forall s :: s in front ==> s in segs;
      ReducePlain(elems, front, rooted);
      var all := elems + segs;
      assert all[..|all| - 1] == elems + front;
      assert all[|all| - 1] == segs[|segs| - 1];
      assert segs[|segs| - 1] in segs;
      assert Reduce(elems, rooted) + front + [segs[|segs| - 1]] == Reduce(elems, rooted) + segs;
    }
  }

  /** The path `dir` (already clean) extended by the plain elements `segs`. */
  function Extend(dir: string, segs: seq<string>): string {
    if dir == "." then Join(segs, '/')
    else if dir == "/" then "/" + Join(segs, '/')
    else dir + "/" + Join(segs, '/')
  }

  lemma {:induction false} JoinNotDot(st: seq<string>)
    requires |st| > 0 && forall s :: s in st ==> StackElement(s)
    ensures Join(st, '/') != "." && Join(st, '/') != "" && Join(st, '/')[0] != '/'
  {
    assert st[0] in st;
    JoinHead(st, '/');
    if |st| > 1 {
      assert |Join(st, '/')| >= |st[0]| + 1;
    }
  }

  lemma {:induction false} JoinPlainNoBase(ps: seq<string>)
    requires ps != [] && forall s :: s in ps ==> Plain(s)
    ensures Clean(Join(ps, '/')) == Join(ps, '/')
  {
    assert forall s :: s in ps ==> '/' !in s;
    SplitJoin(ps, '/');
    assert ps[0] in ps;
    JoinHead(ps, '/');
    ReducePlain([], ps, false);
    assert [] + ps == ps;
  }

  lemma {:induction false} SplitBase(base: string, ps: seq<string>)
    requires ps != [] && forall s :: s in ps ==> Plain(s)
    ensures Split(base + "/" + Join(ps, '/'), '/') == Split(base, '/') + ps
  {
    assert forall s :: s in ps ==> '/' !in s;
    SplitJoin(ps, '/');
    SplitAppend(base, Join(ps, '/'), '/');
  }

  /** Rendering a stack extended by plain elements extends the rendered stack. */
  lemma {:induction false} RenderExtend(rooted: bool, st: seq<string>, ps: seq<string>)
    requires ps != [] && forall s :: s in ps ==> Plain(s)
    requires forall s :: s in st ==> StackElement(s)
    ensures Render(rooted, st + ps) == Extend(Render(rooted, st), ps)
  {
    if st == [] {
      assert st + ps == ps;
      if !rooted {
        assert ps[0] in ps;
        JoinHead(ps, '/');
      }
    } else {
      JoinAppend(st, ps, '/');
      JoinNotDot(st);
    }
  }

  lemma {:induction false} JoinPlainBase(base: string, ps: seq<string>)
    requires base != "" && ps != [] && forall s :: s in ps ==> Plain(s)
    ensures Clean(base + "/" + Join(ps, '/')) == Extend(Clean(base), ps)
  {
    var p := base + "/" + Join(ps, '/');
    assert p[0] == base[0];
    var rooted := base[0] == '/';
    SplitBase(base, ps);
    var elems := Split(base, '/');
    ReducePlain(elems, ps, rooted);
    var st := Reduce(elems, rooted);
    SplitPiecesFree(base, '/');
    ReduceStack(elems, rooted);
    assert Clean(p) == Render(rooted, st + ps);
    assert Clean(base) == Render(rooted, st);
    RenderExtend(rooted, st, ps);
  }

  /** path.Join of a base path and plain-or-empty elements, at least one of them
      plain: the cleaned base extended by the plain elements, in order. */
  lemma {:induction false} JoinPlain(base: string, segs: seq<string>)
    requires forall s :: s in segs ==> Segment(s)
    requires NonEmpty(segs) != []
    ensures PathJoin([base] + segs) == Extend(Clean(base), NonEmpty(segs))
  {
    var ps := NonEmpty(segs);
    assert forall s :: s in ps ==> Plain(s);
    NonEmptyAppend([base], segs);
    if base == "" {
      assert NonEmpty([base]) == [];
      assert NonEmpty([base] + segs) == ps;
      JoinPlainNoBase(ps);
    } else {
      assert NonEmpty([base]) == [base];
      assert NonEmpty([base] + segs) == [base] + ps;
      JoinAppend([base], ps, '/');
      JoinPlainBase(base, ps);
    }
  }
}
