/** Path text: the separator-scanning loop shared by normalisation and lookup. */
module Path {
  import opened Types

  const SLASH: byte := 47
  const BACKSLASH: byte := 92
  const DOT: byte := 46

  predicate IsSeparator(c: byte) {
    c == SLASH || c == BACKSLASH
  }

  /** Length of the leading run of bytes that are not separators. */
  function Run(s: seq<byte>): (n: nat)
    ensures n <= |s|
    ensures forall k :: 0 <= k < n ==> !IsSeparator(s[k])
    ensures n < |s| ==> IsSeparator(s[n])
  {
    if s == [] || IsSeparator(s[0]) then 0 else 1 + Run(s[1..])
  }

  /** The components a path names: maximal separator-free runs, "." dropped. */
  function Components(s: seq<byte>): seq<Name>
    decreases |s|
  {
    if s == [] then []
    else if IsSeparator(s[0]) then Components(s[1..])
    else
      var n := Run(s);
      (if s[..n] == [DOT] then [] else [s[..n]]) + Components(s[n..])
  }

  /** A component that survives normalisation. */
  predicate Plain(c: Name) {
    c != [] && c != [DOT] && forall k :: 0 <= k < |c| ==> !IsSeparator(c[k])
  }

  predicate AllPlain(cs: seq<Name>) {
    forall k :: 0 <= k < |cs| ==> Plain(cs[k])
  }

  const DOTDOT: Name := [46, 46]

  /** A name the tree can hold. */
  predicate ValidName(name: Name) {
    && name != [] && name != [DOT] && name != DOTDOT
    && forall k :: 0 <= k < |name| ==> !IsSeparator(name[k]) && name[k] != 0
  }

  predicate AllValid(cs: seq<Name>) {
    forall k :: 0 <= k < |cs| ==> ValidName(cs[k])
  }

  predicate NoDotDot(cs: seq<Name>) {
    DOTDOT !in cs
  }

  /** The normal form of a component list: '/' between consecutive components. */
  function Join(cs: seq<Name>): seq<byte> {
    if cs == [] then []
    else if |cs| == 1 then cs[0]
    else cs[0] + [SLASH] + Join(cs[1..])
  }

  lemma {:induction false} ComponentsArePlain(s: seq<byte>)
    ensures AllPlain(Components(s))
    decreases |s|
  {
    if s != [] {
      if IsSeparator(s[0]) {
        ComponentsArePlain(s[1..]);
      } else {
        ComponentsArePlain(s[Run(s)..]);
      }
    }
  }

  lemma {:induction false} RunOfPrefix(c: Name, rest: seq<byte>)
    requires forall k :: 0 <= k < |c| ==> !IsSeparator(c[k])
    requires rest != [] ==> IsSeparator(rest[0])
    ensures Run(c + rest) == |c|
  {
    assert forall k :: 0 <= k < |c| ==> (c + rest)[k] == c[k];
    assert rest != [] ==> (c + rest)[|c|] == rest[0];
  }

  lemma {:induction false} ComponentsCons(c: Name, rest: seq<byte>)
    requires Plain(c) && (rest != [] ==> IsSeparator(rest[0]))
    ensures Components(c + rest) == [c] + Components(rest)
  {
    RunOfPrefix(c, rest);
    assert (c + rest)[..|c|] == c && (c + rest)[|c|..] == rest;
  }

  /** Splitting what Join produced gives the components back. */
  lemma {:induction false} ComponentsOfJoin(cs: seq<Name>)
    requires AllPlain(cs)
    ensures Components(Join(cs)) == cs
  {
    if |cs| == 1 {
      ComponentsCons(cs[0], []);
      assert cs[0] + [] == cs[0] && cs == [cs[0]];
    } else if |cs| > 1 {
      var rest := [SLASH] + Join(cs[1..]);
      ComponentsCons(cs[0], rest);
      assert rest[1..] == Join(cs[1..]) && cs[0] + rest == cs[0] + [SLASH] + Join(cs[1..]);
      ComponentsOfJoin(cs[1..]);
      assert cs == [cs[0]] + cs[1..];
    }
  }

  /** Normalised text names the components it was joined from exactly when every one of them is plain. */
  lemma {:induction false} RoundTripsIff(cs: seq<Name>)
    ensures Components(Join(cs)) == cs <==> AllPlain(cs)
    ensures Components(Join(Components(Join(cs)))) == cs <==> AllPlain(cs)
  {
    ComponentsArePlain(Join(cs));
    ComponentsOfJoin(Components(Join(cs)));
    if AllPlain(cs) {
      ComponentsOfJoin(cs);
    }
  }

  /** A name is valid exactly when it is one component of path text, is not "..", and holds no NUL. */
  lemma {:induction false} ValidNameIff(name: Name)
    ensures ValidName(name) <==> Components(name) == [name] && name != [46, 46] && 0 !in name
  {
    if ValidName(name) {
      ComponentsCons(name, []);
      assert name + [] == name;
    } else if Components(name) == [name] {
      ComponentsArePlain(name);
      assert Plain([name][0]);
    }
  }

  /** Appending one component to a normal form. */
  lemma {:induction false} JoinSnoc(cs: seq<Name>, c: Name)
    ensures Join(cs + [c]) == if cs == [] then c else Join(cs) + [SLASH] + c
  {
    if cs == [] {
      assert cs + [c] == [c];
    } else {
      assert (cs + [c])[1..] == cs[1..] + [c];
      assert (cs + [c])[0] == cs[0];
      JoinSnoc(cs[1..], c);
    }
  }

  /** A join of non-empty components is empty only for the empty list. */
  lemma {:induction false} JoinEmpty(cs: seq<Name>)
    requires AllPlain(cs)
    ensures Join(cs) == [] <==> cs == []
  {
    if cs != [] {
      assert Plain(cs[0]);
    }
  }

  /** normalize_path: one pass over the input, appending component by component. */
  method Normalize(input: seq<byte>) returns (out: seq<byte>)
    ensures out == Join(Components(input))
    ensures Components(out) == Components(input)
  {
    out := [];
    ghost var done: seq<Name> := [];
    var i, n := 0, |input|;
    while i < n
      invariant 0 <= i <= n
      invariant out == Join(done) && AllPlain(done)
      invariant done + Components(input[i..]) == Components(input)
    {
      var j, comp := ScanComponent(input, i);
      i := j;
      if comp == [] || comp == [DOT] {
        continue;
      }
      JoinSnoc(done, comp);
      JoinEmpty(done);
      if |out| > 0 {
        out := out + [SLASH];
      }
      out := out + comp;
      done := done + [comp];
    }
    assert done == Components(input);
    ComponentsOfJoin(done);
  }

  /** One turn of the scanning loop: skip separators, then take a component. */
  method ScanComponent(s: seq<byte>, start: nat) returns (end: nat, comp: Name)
    requires start < |s|
    ensures start < end <= |s|
    ensures comp == [] ==> Components(s[start..]) == [] && end == |s|
    ensures comp == [DOT] ==> Components(s[start..]) == Components(s[end..])
    ensures comp != [] && comp != [DOT] ==>
              Plain(comp) && Components(s[start..]) == [comp] + Components(s[end..])
  {
    var i := start;
    while i < |s| && IsSeparator(s[i])
      invariant start <= i <= |s|
      invariant Components(s[i..]) == Components(s[start..])
    {
      assert s[i..][1..] == s[i + 1..];
      i := i + 1;
    }
    var j := i;
    while j < |s| && !IsSeparator(s[j])
      invariant i <= j <= |s|
      invariant forall k :: i <= k < j ==> !IsSeparator(s[k])
    {
      j := j + 1;
    }
    comp := s[i..j];
    end := j;
    ComponentAt(s, i, j);
  }

  /** What the components of `s` are from a run of bytes between separators on. */
  lemma ComponentAt(s: seq<byte>, i: nat, j: nat)
    requires i <= j <= |s| && (forall k :: i <= k < j ==> !IsSeparator(s[k])) && (j < |s| ==> IsSeparator(s[j]))
    requires i < |s| ==> !IsSeparator(s[i])
    ensures var comp := s[i..j];
            if comp == [] then i == |s| && Components(s[i..]) == []
            else Components(s[i..]) == (if comp == [DOT] then [] else [comp]) + Components(s[j..])
    ensures var comp := s[i..j]; comp != [] && comp != [DOT] ==> Plain(comp)
  {
    var comp := s[i..j];
    assert s[i..] == comp + s[j..];
    RunOfPrefix(comp, s[j..]);
    if comp != [] {
      assert s[i..][..j - i] == comp && s[i..][j - i..] == s[j..];
    }
  }

  /** Splits at the last '/'; `pos` is what rfind returns. */
  method SplitParent(path: seq<byte>) returns (parent: seq<byte>, leaf: seq<byte>)
    ensures SLASH !in leaf
    ensures path == if SLASH in path then parent + [SLASH] + leaf else leaf
    ensures SLASH !in path ==> parent == []
  {
    var pos := |path|;
    while pos > 0 && path[pos - 1] != SLASH
      invariant 0 <= pos <= |path|
      invariant SLASH !in path[pos..]
      decreases pos
    {
      assert path[pos - 1..] == [path[pos - 1]] + path[pos..];
      pos := pos - 1;
    }
    if pos == 0 {
      assert path[0..] == path;
      return [], path;
    }
    assert path == path[..pos - 1] + [SLASH] + path[pos..];
    return path[..pos - 1], path[pos..];
  }

  lemma {:induction false} NoSlashInPlain(cs: seq<Name>)
    requires AllPlain(cs) && cs != []
    ensures SLASH in Join(cs) <==> |cs| > 1
  {
    assert Plain(cs[0]);
    if |cs| == 1 {
      assert forall k :: 0 <= k < |cs[0]| ==> cs[0][k] != SLASH;
    } else {
      assert Join(cs)[|cs[0]|] == SLASH;
    }
  }

  /** The split is unique: one leaf without '/' fits at the end of a path. */
  lemma SplitUnique(a: seq<byte>, b: seq<byte>, x: seq<byte>, y: seq<byte>)
    requires a + [SLASH] + b == x + [SLASH] + y
    requires SLASH !in b && SLASH !in y
    ensures a == x && b == y
  {
    var s := a + [SLASH] + b;
    assert s[|a|] == SLASH && s[|x|] == SLASH;
    assert forall k :: |a| < k < |s| ==> s[k] == b[k - |a| - 1];
    assert forall k :: |x| < k < |s| ==> s[k] == y[k - |x| - 1];
    assert a == s[..|a|] && b == s[|a| + 1..];
    assert x == s[..|x|] && y == s[|x| + 1..];
  }

  lemma JoinLast(cs: seq<Name>)
    requires AllPlain(cs) && cs != []
    ensures var front, last := cs[..|cs| - 1], cs[|cs| - 1];
            && SLASH !in last && (SLASH in Join(cs) <==> |cs| > 1)
            && Join(cs) == if |cs| > 1 then Join(front) + [SLASH] + last else last
  {
    var front, last := cs[..|cs| - 1], cs[|cs| - 1];
    assert cs == front + [last];
    JoinSnoc(front, last);
    NoSlashInPlain(cs);
    assert Plain(last);
  }

  /** On a normal form, splitting peels exactly the last component off. */
  lemma {:induction false} SplitOfJoin(cs: seq<Name>, parent: seq<byte>, leaf: seq<byte>)
    requires AllPlain(cs) && cs != []
    requires SLASH !in leaf
    requires Join(cs) == if SLASH in Join(cs) then parent + [SLASH] + leaf else leaf
    requires SLASH !in Join(cs) ==> parent == []
    ensures parent == Join(cs[..|cs| - 1]) && leaf == cs[|cs| - 1]
  {
    JoinLast(cs);
    if |cs| > 1 {
      SplitUnique(parent, leaf, Join(cs[..|cs| - 1]), cs[|cs| - 1]);
    } else {
      assert cs[..|cs| - 1] == [];
    }
  }

  /** The component list of a path, by the same scan. */
  method Split(path: seq<byte>) returns (cs: seq<Name>)
    ensures cs == Components(path) && AllPlain(cs)
  {
    cs := [];
    var i := 0;
    assert path[0..] == path;
    while i < |path|
      invariant 0 <= i <= |path|
      invariant cs + Components(path[i..]) == Components(path)
    {
      var j, comp := ScanComponent(path, i);
      i := j;
      if comp == [] || comp == [DOT] {
        continue;
      }
      assert cs + ([comp] + Components(path[i..])) == (cs + [comp]) + Components(path[i..]);
      cs := cs + [comp];
    }
    ComponentsArePlain(path);
  }

  lemma {:induction false} ParentOfJoin(cs: seq<Name>, parent: seq<byte>, leaf: seq<byte>)
    requires AllPlain(cs) && cs != []
    requires SLASH !in leaf
    requires Join(cs) == if SLASH in Join(cs) then parent + [SLASH] + leaf else leaf
    requires SLASH !in Join(cs) ==> parent == []
    ensures cs == Components(parent) + [leaf]
  {
    SplitOfJoin(cs, parent, leaf);
    ComponentsOfJoin(cs[..|cs| - 1]);
  }

  /** Normalises a path and splits its last component off; fails on the empty path. */
  method ParentAndLeaf(path: seq<byte>) returns (ok: bool, parent: seq<byte>, leaf: Name)
    ensures ok <==> Components(path) != []
    ensures ok ==> Components(path) == Components(parent) + [leaf]
  {
    ghost var cs := Components(path);
    ComponentsArePlain(path);
    var norm := Normalize(path);
    JoinEmpty(cs);
    if norm == [] {
      return false, [], [];
    }
    parent, leaf := SplitParent(norm);
    ParentOfJoin(cs, parent, leaf);
    ok := true;
  }

  /** path_is_under: equal, or below at a separator. */
  predicate IsUnder(child: seq<byte>, parent: seq<byte>) {
    parent == [] || (parent <= child && (|child| == |parent| || child[|parent|] == SLASH))
  }

  lemma {:induction false} ComponentsAcross(a: seq<byte>, tail: seq<byte>)
    requires tail != [] && IsSeparator(tail[0])
    ensures Components(a + tail) == Components(a) + Components(tail)
    decreases |a|
  {
    if a == [] {
      assert a + tail == tail;
    } else if IsSeparator(a[0]) {
      assert (a + tail)[1..] == a[1..] + tail;
      ComponentsAcross(a[1..], tail);
    } else {
      RunAcross(a, tail);
      ComponentsAcross(a[Run(a)..], tail);
    }
  }

  lemma {:induction false} RunAcross(a: seq<byte>, tail: seq<byte>)
    requires tail != [] && IsSeparator(tail[0])
    ensures var n := Run(a);
            Run(a + tail) == n && (a + tail)[..n] == a[..n] && (a + tail)[n..] == a[n..] + tail
  {
    var n := Run(a);
    assert a + tail == a[..n] + (a[n..] + tail);
    RunOfPrefix(a[..n], a[n..] + tail);
  }

  lemma {:induction false} JoinConcat(p: seq<Name>, rest: seq<Name>)
    requires p != [] && rest != []
    ensures Join(p + rest) == Join(p) + [SLASH] + Join(rest)
  {
    assert (p + rest)[1..] == p[1..] + rest;
    if |p| > 1 {
      JoinConcat(p[1..], rest);
      assert p[0] + [SLASH] + (Join(p[1..]) + [SLASH] + Join(rest)) == (p[0] + [SLASH] + Join(p[1..])) + [SLASH] + Join(rest);
    } else {
      assert p[1..] + rest == rest;
    }
  }

  /** On normal forms the text test is exactly "at or below" on components. */
  lemma {:induction false} UnderIsPrefix(child: seq<Name>, parent: seq<Name>)
    requires AllPlain(child) && AllPlain(parent)
    ensures IsUnder(Join(child), Join(parent)) <==> parent <= child
  {
    JoinEmpty(parent);
    ComponentsOfJoin(child);
    ComponentsOfJoin(parent);
    var c, p := Join(child), Join(parent);
    if IsUnder(c, p) && parent != [] {
      if |c| == |p| {
        assert c == p;
      } else {
        assert c == p + c[|p|..];
        ComponentsAcross(p, c[|p|..]);
      }
    }
    if parent <= child && parent != [] && parent != child {
      var rest := child[|parent|..];
      assert child == parent + rest;
      JoinConcat(parent, rest);
    }
  }
}
