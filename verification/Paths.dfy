/** Go's `path` package, following the rules its documentation states for `Clean`, and the canonical
    archive names that initrd.go builds out of it. */
module Paths {
  import opened GoStrings

  predicate IsAbs(p: string) {
    HasPrefix(p, "/")
  }

  /** One element of the path against the elements kept so far: empty and "." elements vanish, ".."
      removes the element before it, and a ".." that begins a rooted path vanishes. */
  function Push(stack: seq<string>, elem: string, rooted: bool): seq<string> {
    if elem == "" || elem == "." then stack
    else if elem != ".." then stack + [elem]
    else if |stack| > 0 && stack[|stack| - 1] != ".." then stack[..|stack| - 1]
    else if rooted then stack
    else stack + [".."]
  }

  function Reduce(elems: seq<string>, rooted: bool, stack: seq<string>): seq<string> {
    if elems == [] then stack else Reduce(elems[1..], rooted, Push(stack, elems[0], rooted))
  }

  /** The elements that are left of `p` once it is clean. */
  function Elements(p: string): seq<string> {
    Reduce(Split(p, '/'), IsAbs(p), [])
  }

  /** `path.Clean` */
  function Clean(p: string): string {
    var elems := Elements(p);
    if IsAbs(p) then "/" + Join(elems, '/')
    else if elems == [] then "."
    else Join(elems, '/')
  }

  /** `path.Join` of two elements. */
  function JoinPath(a: string, b: string): string {
    if a == "" && b == "" then ""
    else if a == "" then Clean(b)
    else if b == "" then Clean(a)
    else Clean(a + "/" + b)
  }

  /** The part of `p` up to and including its last slash. */
  function DirPart(p: string): string {
    if p == "" then ""
    else if p[|p| - 1] == '/' then p
    else DirPart(p[..|p| - 1])
  }

  /** `path.Dir` */
  function Dir(p: string): string {
    Clean(DirPart(p))
  }

  /** `archiveLookupPath`: the canonical form under which archive names are compared. */
  function Lookup(name: string): string {
    TrimPrefix(Clean(name), "/")
  }

  /** `archivePath` */
  function ArchivePath(destination: string): Option<string> {
    if IsAbs(destination) then Some("./" + Lookup(destination)) else None
  }

  /** The canonical path of the record that a mount at `destination` gets. */
  function Key(destination: string): string {
    Lookup("./" + Lookup(destination))
  }

  /** `p` is a directory on the way to `k`, and not `k` itself. */
  predicate IsProperAncestor(p: string, k: string) {
    p != "" && |p| < |k| && k[..|p|] == p && k[|p|] == '/'
  }

  // ------------------------------------------------------------------ plain elements

  /** An element that names an entry of its directory. */
  predicate Plain(elem: string) {
    elem != "" && elem != "." && elem != ".." && '/' !in elem
  }

  ghost predicate AllPlain(elems: seq<string>) {
    forall i :: 0 <= i < |elems| ==> Plain(elems[i])
  }

  /** What is left of a path: plain elements behind the leading ".." ones, and none of those if it is rooted. */
  ghost predicate Reduced(elems: seq<string>, rooted: bool) {
    exists k :: 0 <= k <= |elems| && ReducedAt(elems, k, rooted)
  }

  ghost predicate ReducedAt(elems: seq<string>, k: nat, rooted: bool)
    requires k <= |elems|
  {
    && (forall i :: 0 <= i < k ==> elems[i] == "..")
    && (forall i :: k <= i < |elems| ==> Plain(elems[i]))
    && (rooted ==> k == 0)
  }

  lemma PushReduced(stack: seq<string>, elem: string, rooted: bool)
    requires Reduced(stack, rooted) && '/' !in elem
    ensures Reduced(Push(stack, elem, rooted), rooted)
  {
    var k :| 0 <= k <= |stack| && ReducedAt(stack, k, rooted);
    var next := Push(stack, elem, rooted);
    if elem == "" || elem == "." {
    } else if elem != ".." {
      assert ReducedAt(next, k, rooted);
    } else if |stack| > 0 && stack[|stack| - 1] != ".." {
      assert ReducedAt(next, k, rooted);
    } else if !rooted {
      assert k == |stack|;
      assert ReducedAt(next, k + 1, rooted);
    }
  }

  lemma {:induction false} ReduceReduced(elems: seq<string>, rooted: bool, stack: seq<string>)
    requires Reduced(stack, rooted) && AllFree(elems, '/')
    ensures Reduced(Reduce(elems, rooted, stack), rooted)
    decreases |elems|
  {
    if elems != [] {
      PushReduced(stack, elems[0], rooted);
      ReduceReduced(elems[1..], rooted, Push(stack, elems[0], rooted));
    }
  }

  lemma ElementsReduced(p: string)
    ensures Reduced(Elements(p), IsAbs(p))
  {
    SplitPartsFree(p, '/');
    assert ReducedAt([], 0, IsAbs(p));
    ReduceReduced(Split(p, '/'), IsAbs(p), []);
  }

  lemma AbsElementsPlain(p: string)
    requires IsAbs(p)
    ensures AllPlain(Elements(p))
  {
    ElementsReduced(p);
    var k :| 0 <= k <= |Elements(p)| && ReducedAt(Elements(p), k, true);
  }

  lemma {:induction false} ReduceAppend(a: seq<string>, b: seq<string>, rooted: bool, stack: seq<string>)
    ensures Reduce(a + b, rooted, stack) == Reduce(b, rooted, Reduce(a, rooted, stack))
    decreases |a|
  {
    if a == [] {
      assert a + b == b;
    } else {
      assert (a + b)[1..] == a[1..] + b;
      ReduceAppend(a[1..], b, rooted, Push(stack, a[0], rooted));
    }
  }

  /** Elements that are reduced already stay as they are. */
  lemma {:induction false} ReduceFixed(elems: seq<string>, k: nat, rooted: bool)
    requires k <= |elems| && ReducedAt(elems, k, rooted)
    ensures Reduce(elems, rooted, []) == elems
    decreases |elems|
  {
    if |elems| > 0 {
      var n := |elems| - 1;
      var init := elems[..n];
      ReduceFixed(init, if k <= n then k else n, rooted);
      ReduceAppend(init, [elems[n]], rooted, []);
      assert init + [elems[n]] == elems;
      assert Reduce([elems[n]], rooted, init) == Push(init, elems[n], rooted) by {
        assert [elems[n]][1..] == [];
      }
    }
  }

  lemma ReducePlain(elems: seq<string>, rooted: bool)
    requires AllPlain(elems)
    ensures Reduce(elems, rooted, []) == elems
  {
    assert ReducedAt(elems, 0, rooted);
    ReduceFixed(elems, 0, rooted);
  }

  lemma {:induction false} JoinHead(elems: seq<string>)
    requires |elems| >= 1 && elems[0] != "" && '/' !in elems[0]
    ensures Join(elems, '/') != "" && Join(elems, '/')[0] == elems[0][0] != '/'
  {
  }

  /** The elements of a clean path are those of the path. */
  lemma ElementsOfClean(p: string)
    requires Elements(p) != []
    ensures Elements(Clean(p)) == Elements(p) && IsAbs(Clean(p)) == IsAbs(p)
  {
    var elems := Elements(p);
    ElementsReduced(p);
    var k :| 0 <= k <= |elems| && ReducedAt(elems, k, IsAbs(p));
    ReduceFixed(elems, k, IsAbs(p));
    assert AllFree(elems, '/');
    var j := Join(elems, '/');
    SplitJoin(elems, '/');
    JoinHead(elems);
    hide Elements, Split, Join, ReducedAt;
    if IsAbs(p) {
      RootedElements(j);
    } else {
      RelativeElements(j);
    }
  }

  lemma RootedElements(s: string)
    ensures IsAbs("/" + s) && Elements("/" + s) == Reduce(Split(s, '/'), true, [])
  {
    SplitAtSep("", s, '/');
    assert "" + ['/'] + s == "/" + s;
    assert ("/" + s)[..1] == "/";
    assert ([""] + Split(s, '/'))[1..] == Split(s, '/');
    assert Split("", '/') == [""];
    hide Split;
  }

  lemma RelativeElements(s: string)
    requires s != "" && s[0] != '/'
    ensures !IsAbs(s) && Elements(s) == Reduce(Split(s, '/'), false, [])
  {
    hide Split, Reduce;
    assert s[..1][0] == s[0];
  }

  lemma NoElements()
    ensures Clean("/") == "/" && Clean(".") == "."
  {
    assert Split("/", '/') == ["", ""] && ["", ""][1..] == [""] && [""][1..] == [];
    SplitFree(".", '/');
    assert ["."][1..] == [];
  }

  /** A clean path is a fixed point: cleaning twice is cleaning once. */
  lemma CleanIdempotent(p: string)
    ensures Clean(Clean(p)) == Clean(p)
  {
    NoElements();
    if Elements(p) != [] {
      ElementsOfClean(p);
    }
    hide Elements, Join;
  }

  // ------------------------------------------------------------------ the rules of the documentation

  /** Elements in the middle that leave every stack alone can go. */
  lemma MiddleGone(p: string, q: string, a: string, mid: seq<string>, b: string)
    requires IsAbs(p) == IsAbs(q)
    requires Split(p, '/') == Split(a, '/') + mid + Split(b, '/') && Split(q, '/') == Split(a, '/') + Split(b, '/')
    requires var stack := Reduce(Split(a, '/'), IsAbs(p), []); Reduce(mid, IsAbs(p), stack) == stack
    ensures Clean(p) == Clean(q)
  {
    hide Split, Join;
    var rooted := IsAbs(p);
    ReduceAppend(Split(a, '/'), Split(b, '/'), rooted, []);
    ReduceAppend(Split(a, '/') + mid, Split(b, '/'), rooted, []);
    ReduceAppend(Split(a, '/'), mid, rooted, []);
    hide Reduce, IsAbs;
    assert Elements(p) == Elements(q);
    hide Elements;
  }

  lemma SameRoot(a: string, s: string, t: string)
    requires s != "" && t != "" && s[0] == t[0]
    ensures IsAbs(a + s) == IsAbs(a + t)
  {
    if a == "" {
      assert (a + s)[..1][0] == s[0] && (a + t)[..1][0] == t[0];
    } else {
      assert (a + s)[..1][0] == a[0] && (a + t)[..1][0] == a[0];
    }
  }

  lemma SplitSlash(a: string, b: string)
    ensures Split(a + "/" + b, '/') == Split(a, '/') + Split(b, '/')
  {
    SplitAtSep(a, b, '/');
  }

  lemma SplitTwice(a: string, x: string, b: string)
    requires '/' !in x
    ensures Split(a + "/" + x + "/" + b, '/') == Split(a, '/') + [x] + Split(b, '/')
  {
    SplitFree(x, '/');
    hide Split;
    SplitSlash(a + "/" + x, b);
    SplitSlash(a, x);
  }

  lemma RootTwice(a: string, x: string, b: string)
    ensures IsAbs(a + "/" + x + "/" + b) == IsAbs(a + "/" + b)
  {
    hide IsAbs;
    SameRoot(a, "/" + x + "/" + b, "/" + b);
    assert a + ("/" + x + "/" + b) == a + "/" + x + "/" + b && a + ("/" + b) == a + "/" + b;
  }

  lemma ReduceOne(elem: string, rooted: bool, stack: seq<string>)
    ensures Reduce([elem], rooted, stack) == Push(stack, elem, rooted)
  {
    assert [elem][1..] == [];
  }

  /** Multiple slashes count as one, and "." elements do not count. */
  lemma CleanSkips(a: string, x: string, b: string)
    requires x == "" || x == "."
    ensures Clean(a + "/" + x + "/" + b) == Clean(a + "/" + b)
  {
    var p, q := a + "/" + x + "/" + b, a + "/" + b;
    SplitTwice(a, x, b);
    SplitSlash(a, b);
    RootTwice(a, x, b);
    ReduceOne(x, IsAbs(p), Reduce(Split(a, '/'), IsAbs(p), []));
    hide Reduce, Split, IsAbs;
    MiddleGone(p, q, a, [x], b);
  }

  lemma SplitThrice(a: string, x: string, y: string, b: string)
    requires '/' !in x && '/' !in y
    ensures Split(a + "/" + x + "/" + y + "/" + b, '/') == Split(a, '/') + [x, y] + Split(b, '/')
  {
    SplitFree(x, '/');
    hide Split;
    SplitTwice(a + "/" + x, y, b);
    SplitSlash(a, x);
    assert Split(a, '/') + [x] + [y] + Split(b, '/') == Split(a, '/') + [x, y] + Split(b, '/');
  }

  /** An inner ".." goes, along with the element before it. */
  lemma CleanGoesBack(a: string, x: string, b: string)
    requires Plain(x)
    ensures Clean(a + "/" + x + "/../" + b) == Clean(a + "/" + b)
  {
    var p, q := a + "/" + x + "/" + ".." + "/" + b, a + "/" + b;
    assert a + "/" + x + "/../" + b == p;
    SplitThrice(a, x, "..", b);
    SplitSlash(a, b);
    RootTwice(a + "/" + x, "..", b);
    RootTwice(a, x, b);
    BackAgain(x, IsAbs(p), Reduce(Split(a, '/'), IsAbs(p), []));
    hide Reduce, Split, IsAbs, Plain;
    MiddleGone(p, q, a, [x, ".."], b);
  }

  lemma BackAgain(x: string, rooted: bool, stack: seq<string>)
    requires Plain(x)
    ensures Reduce([x, ".."], rooted, stack) == stack
  {
    var more := stack + [x];
    ReduceAppend([x], [".."], rooted, stack);
    ReduceOne(x, rooted, stack);
    ReduceOne("..", rooted, more);
    hide Reduce;
    assert [x] + [".."] == [x, ".."];
    assert more[..|more| - 1] == stack;
  }

  /** A ".." at the root goes. */
  lemma CleanStaysInRoot(b: string)
    ensures Clean("/../" + b) == Clean("/" + b)
  {
    var p, q := "/../" + b, "/" + b;
    SplitTwice("", "..", b);
    assert "" + "/" + ".." + "/" + b == p && "" + "/" + b == q;
    assert p[..1] == "/";
    assert Split("", '/') == [""];
    ReduceOne("", true, []);
    ReduceOne("..", true, []);
    hide Reduce, Split;
    MiddleGone(p, q, "", [".."], b);
  }

  lemma ReducedJoin(elems: seq<string>, k: nat)
    requires k <= |elems| && ReducedAt(elems, k, false) && elems != []
    ensures var j := Join(elems, '/'); j != "" && j[0] != '/' && Split(j, '/') == elems
    ensures Reduce(elems, false, []) == elems && (k == 0 ==> Reduce(elems, true, []) == elems)
  {
    assert AllFree(elems, '/');
    SplitJoin(elems, '/');
    JoinHead(elems);
    ReduceFixed(elems, k, false);
    if k == 0 {
      assert ReducedAt(elems, 0, true);
      ReduceFixed(elems, 0, true);
    }
  }

  /** What these rules end in: plain elements, after "/" or behind leading ".." elements, are clean, and nothing at all
      is ".". */
  lemma CleanEnds(elems: seq<string>, k: nat)
    requires k <= |elems| && ReducedAt(elems, k, false) && elems != []
    ensures Clean(Join(elems, '/')) == Join(elems, '/')
    ensures k == 0 ==> Clean("/" + Join(elems, '/')) == "/" + Join(elems, '/')
    ensures Clean("") == "." && Clean("/") == "/"
  {
    hide Elements, Join, Split, Reduce, ReducedAt;
    NoElements();
    EmptyIsDot();
    ReducedJoin(elems, k);
    RelativeElements(Join(elems, '/'));
    RootedElements(Join(elems, '/'));
  }

  lemma EmptyIsDot()
    ensures Clean("") == "."
  {
    assert Split("", '/') == [""] && [""][1..] == [];
  }

  // ------------------------------------------------------------------ keys of mounts

  /** The canonical form of plain elements: their join, and "." for none at all. */
  function KeyOf(elems: seq<string>): string {
    if elems == [] then "." else Join(elems, '/')
  }

  lemma PlainJoin(elems: seq<string>)
    requires |elems| >= 1 && AllPlain(elems)
    ensures var j := Join(elems, '/'); j != "" && !IsAbs(j) && !IsAbs("./" + j) && Split(j, '/') == elems
  {
    var j := Join(elems, '/');
    SplitJoin(elems, '/');
    JoinHead(elems);
    hide Split, Join;
    assert j[..1][0] == j[0];
    assert ("./" + j)[..1] == ".";
  }

  lemma SplitDotSlash(s: string)
    ensures Split("./" + s, '/') == ["."] + Split(s, '/')
  {
    SplitAtSep(".", s, '/');
    SplitFree(".", '/');
    hide Split;
    assert "." + ['/'] + s == "./" + s;
  }

  lemma ReduceDot(elems: seq<string>)
    ensures Reduce(["."] + elems, false, []) == Reduce(elems, false, [])
  {
    assert (["."] + elems)[1..] == elems;
  }

  lemma PlainElements(elems: seq<string>)
    requires |elems| >= 1 && AllPlain(elems)
    ensures var j := Join(elems, '/'); Elements(j) == elems && Elements("./" + j) == elems
  {
    PlainJoin(elems);
    ReducePlain(elems, false);
    ReduceDot(elems);
    SplitDotSlash(Join(elems, '/'));
    hide Split, Join, AllPlain, Reduce, IsAbs;
  }

  lemma CleanPlain(elems: seq<string>)
    requires |elems| >= 1 && AllPlain(elems)
    ensures Clean(Join(elems, '/')) == Join(elems, '/')
    ensures Clean("./" + Join(elems, '/')) == Join(elems, '/')
    ensures Lookup("./" + Join(elems, '/')) == Join(elems, '/')
    ensures Lookup(Join(elems, '/')) == Join(elems, '/')
  {
    PlainJoin(elems);
    PlainElements(elems);
    hide Elements, Join, AllPlain;
  }

  lemma LookupAbs(destination: string)
    requires IsAbs(destination)
    ensures AllPlain(Elements(destination))
    ensures Lookup(destination) == Join(Elements(destination), '/')
  {
    AbsElementsPlain(destination);
    var j := Join(Elements(destination), '/');
    assert Clean(destination) == "/" + j;
    assert ("/" + j)[..1] == "/" && ("/" + j)[1..] == j;
  }

  /** The key of a mount, spelled out: the clean destination without its slash, except that a
      destination which is the root itself gets the key ".". */
  lemma KeyOfDestination(destination: string)
    requires IsAbs(destination)
    ensures AllPlain(Elements(destination))
    ensures Key(destination) == KeyOf(Elements(destination))
    ensures ArchivePath(destination) == Some("./" + Lookup(destination))
    ensures Lookup(ArchivePath(destination).value) == Key(destination)
    ensures Key(destination) == Lookup(destination) <==> Clean(destination) != "/"
  {
    LookupAbs(destination);
    var elems := Elements(destination);
    var j := Join(elems, '/');
    assert Clean(destination) == "/" + j;
    if elems != [] {
      CleanPlain(elems);
      JoinHead(elems);
    } else {
      assert Split("./", '/') == [".", ""] by {
        SplitAtSep(".", "", '/');
        SplitFree(".", '/');
        assert "." + ['/'] + "" == "./";
      }
      assert [".", ""][1..] == [""];
      assert [""][1..] == [];
      assert !IsAbs("./") by { assert "./"[..1] == "."; }
      assert Clean("./") == ".";
      assert "./" + "" == "./";
    }
  }

  lemma LookupOfRelative(name: string)
    requires !IsAbs(name)
    ensures !IsAbs(Clean(name)) && Lookup(name) == Clean(name)
  {
    ElementsReduced(name);
    var elems := Elements(name);
    if elems != [] {
      JoinHead(elems);
      var c := Join(elems, '/');
      assert c[..1][0] == c[0];
    }
  }

  /** The canonical form of a name is a fixed point exactly if the name is not one of the root. */
  lemma LookupFixed(name: string)
    ensures Lookup(Lookup(name)) == Lookup(name) <==> Clean(name) != "/"
  {
    if IsAbs(name) {
      LookupAbs(name);
      var elems := Elements(name);
      if elems != [] {
        CleanPlain(elems);
        JoinHead(elems);
      } else {
        LookupOfRoot();
      }
    } else {
      LookupOfRelative(name);
      CleanIdempotent(name);
      LookupOfRelative(Clean(name));
    }
  }

  /** For the root it is not: its canonical form is empty, and that of the empty name is ".". */
  lemma LookupOfRoot()
    ensures Lookup("/") == "" && Lookup("") == "."
  {
    assert Split("/", '/') == ["", ""] && ["", ""][1..] == [""] && [""][1..] == [];
    assert Elements("/") == [] && Elements("") == [];
    assert Clean("/") == "/";
  }

  // ------------------------------------------------------------------ directories on the way

  /** The directories on the way to the entry that `elems` name, top down. */
  function ParentPaths(elems: seq<string>): seq<string> {
    if |elems| <= 1 then [] else seq(|elems| - 1, i requires 0 <= i < |elems| - 1 => Join(elems[..i + 1], '/'))
  }

  lemma {:induction false} DirPartJoin(dir: string, last: string)
    requires '/' !in last
    ensures DirPart(dir + "/" + last) == dir + "/"
    ensures DirPart(last) == ""
    decreases |last|
  {
    var p := dir + "/" + last;
    if last == "" {
      assert p[|p| - 1] == '/' && p == dir + "/";
    } else {
      var n := |last| - 1;
      DirPartJoin(dir, last[..n]);
      assert p[..|p| - 1] == dir + "/" + last[..n];
      assert p[|p| - 1] == last[n];
      assert last[n] in last;
    }
  }

  /** The elements that the loop of `addMissingParents` visits, once the empty and "." ones are skipped. */
  lemma DirOfKey(elems: seq<string>)
    requires AllPlain(elems)
    ensures Split(Dir(KeyOf(elems)), '/') == if |elems| <= 1 then ["."] else elems[..|elems| - 1]
  {
    SplitFree(".", '/');
    assert ["."][1..] == [];
    assert Clean("") == "." by { assert Split("", '/') == [""] && [""][1..] == []; }
    if |elems| <= 1 {
      var k := KeyOf(elems);
      assert '/' !in k;
      DirPartJoin("", k);
    } else {
      var n := |elems| - 1;
      var init := elems[..n];
      var j := Join(init, '/');
      assert init + [elems[n]] == elems;
      JoinSnoc(init, elems[n], '/');
      DirPartJoin(j, elems[n]);
      assert KeyOf(elems) == j + "/" + elems[n];
      SplitJoin(init, '/');
      JoinHead(init);
      SplitAtSep(j, "", '/');
      assert j + ['/'] + "" == j + "/";
      assert Split(j + "/", '/') == init + [""];
      ReducePlain(init, false);
      ReduceAppend(init, [""], false, []);
      assert [""][1..] == [];
      assert !IsAbs(j + "/") by { assert (j + "/")[..1][0] == j[0]; }
      assert Elements(j + "/") == init;
      assert Dir(KeyOf(elems)) == j;
    }
  }

  /** The name that the loop holds after each element is the join of the elements so far. */
  lemma JoinPathStep(elems: seq<string>, i: nat)
    requires i < |elems| && AllPlain(elems)
    ensures JoinPath(if i == 0 then "" else Join(elems[..i], '/'), elems[i]) == Join(elems[..i + 1], '/')
  {
    var upto := elems[..i + 1];
    CleanPlain(upto);
    if i == 0 {
      assert upto == [elems[0]];
    } else {
      JoinHead(elems[..i]);
      assert upto == elems[..i] + [elems[i]];
      JoinSnoc(elems[..i], elems[i], '/');
      assert Join(elems[..i], '/') + ['/'] + elems[i] == Join(elems[..i], '/') + "/" + elems[i];
    }
  }

  lemma {:induction false} JoinTake(elems: seq<string>, i: nat)
    requires 0 < i < |elems|
    ensures Join(elems, '/') == Join(elems[..i], '/') + "/" + Join(elems[i..], '/')
    decreases i
  {
    if i == 1 {
      assert elems[..1] == [elems[0]];
    } else {
      JoinTake(elems[1..], i - 1);
      assert elems[1..][..i - 1] == elems[..i][1..];
      assert elems[1..][i - 1..] == elems[i..];
    }
  }

  /** The parents that the loop visits are exactly the proper ancestors of the key. */
  lemma ParentPathsAreAncestors(elems: seq<string>, p: string)
    requires AllPlain(elems)
    ensures p in ParentPaths(elems) <==> IsProperAncestor(p, KeyOf(elems))
  {
    hide AllPlain, IsProperAncestor, KeyOf, Join;
    if p in ParentPaths(elems) {
      var i :| 0 <= i < |elems| - 1 && p == Join(elems[..i + 1], '/');
      ParentIsAncestor(elems, i);
    }
    hide ParentPaths;
    if IsProperAncestor(p, KeyOf(elems)) {
      AncestorIsParent(elems, p);
    }
  }

  lemma ParentIsAncestor(elems: seq<string>, i: nat)
    requires AllPlain(elems) && i < |elems| - 1
    ensures IsProperAncestor(Join(elems[..i + 1], '/'), KeyOf(elems))
  {
    JoinTake(elems, i + 1);
    JoinHead(elems[..i + 1]);
    hide Join;
  }

  lemma AncestorIsParent(elems: seq<string>, p: string)
    requires AllPlain(elems) && IsProperAncestor(p, KeyOf(elems))
    ensures p in ParentPaths(elems)
  {
    var k := KeyOf(elems);
    assert elems != [];
    var rest := k[|p| + 1..];
    assert k == p + ['/'] + rest;
    SplitJoin(elems, '/');
    SplitAtSep(p, rest, '/');
    var n := |Split(p, '/')|;
    assert elems[..n] == Split(p, '/');
    JoinSplit(p, '/');
    assert ParentPaths(elems)[n - 1] == p;
  }

  lemma ParentCount(elems: seq<string>)
    ensures |ParentPaths(elems)| == if |elems| <= 1 then 0 else |elems| - 1
  {
  }

  /** The next parent that the loop reaches, from the one before. */
  lemma NextParent(elems: seq<string>, i: nat)
    requires AllPlain(elems) && i < |ParentPaths(elems)|
    ensures JoinPath(if i == 0 then "" else ParentPaths(elems)[i - 1], elems[i]) == ParentPaths(elems)[i]
    ensures Lookup("./" + ParentPaths(elems)[i]) == ParentPaths(elems)[i]
  {
    hide JoinPath, Join, AllPlain, Lookup;
    JoinPathStep(elems, i);
    ParentPathIsPlainKey(elems, i);
  }

  /** The loop skips no element of a plain path. */
  lemma OnlyDot(elems: seq<string>)
    requires AllPlain(elems)
    ensures forall i :: 0 <= i < |elems| ==> elems[i] != "" && elems[i] != "."
  {
  }

  lemma ParentPathIsPlainKey(elems: seq<string>, i: nat)
    requires AllPlain(elems) && i < |ParentPaths(elems)|
    ensures Lookup("./" + ParentPaths(elems)[i]) == ParentPaths(elems)[i]
  {
    CleanPlain(elems[..i + 1]);
  }
}
