/**
 * The nested string-keyed tree that one language's JSON file holds, and
 * the dotted-path insert-or-overwrite that `setNestedValue` performs on it
 * (src/index.ts:11-26).
 *
 * The source walks a `cursor` down a mutable object; here the tree is a
 * value and the walk is a recursion that rebuilds the nodes on the path.
 * A JavaScript object whose values are strings or objects is an `Object`,
 * a value stored under one of its keys a `Tree`.
 */
module LocaleTree {
  import opened Wrappers
  import opened Strings

  datatype Tree = Leaf(s: string) | Node(m: map<string, Tree>)

  /** A plain object: the top level of a locale, and the contents of every `Node`. */
  type Object = map<string, Tree>

  /** The object stored under `key`, or a fresh empty one when it is missing or a string. */
  function ChildObject(t: Object, key: string): Object {
    if key in t && t[key].Node? then t[key].m else map[]
  }

  /**
   * The loop of setNestedValue on an already split path: every non-final
   * segment descends into an object (created when missing or a string), the
   * final one is overwritten with the string.
   */
  function SetPath(t: Object, path: seq<string>, value: string): (r: Object)
    ensures path == [] ==> r == t
    ensures path != [] ==> r.Keys == t.Keys + {path[0]}
    ensures path != [] ==> forall k :: k in t && k != path[0] ==> r[k] == t[k]
    decreases |path|
  {
    if path == [] then t
    else if |path| == 1 then t[path[0] := Leaf(value)]
    else t[path[0] := Node(SetPath(ChildObject(t, path[0]), path[1..], value))]
  }

  /** `setNestedValue(target, dottedKey, value)`. */
  function SetNestedValue(target: Object, dottedKey: string, value: string): Object {
    SetPath(target, Segments(dottedKey), value)
  }

  /** What a path reaches in an object: the object itself for the empty path. */
  function Lookup(t: Object, path: seq<string>): Option<Tree>
    decreases |path|
  {
    if path == [] then Some(Node(t))
    else if path[0] !in t then None
    else match t[path[0]]
      case Leaf(s) => if |path| == 1 then Some(Leaf(s)) else None
      case Node(m) => Lookup(m, path[1..])
  }

  /** Neither path is a prefix of the other: they part ways at some segment. */
  predicate Diverge(p: seq<string>, q: seq<string>) {
    !(p <= q) && !(q <= p)
  }

  /** Paths that diverge after a common first segment diverge in their tails. */
  lemma DivergeTail(p: seq<string>, q: seq<string>)
    requires Diverge(p, q) && p[0] == q[0]
    ensures |p| > 1 && |q| > 1 && Diverge(p[1..], q[1..])
  {
    assert p == [p[0]] + p[1..];
    assert q == [q[0]] + q[1..];
  }

  // ---------------------------------------------------------------------
  // What one write does
  // ---------------------------------------------------------------------

  /** After a write, its path holds the written string, whatever was there before. */
  lemma {:induction false} SetPathStores(t: Object, path: seq<string>, value: string)
    requires path != []
    ensures Lookup(SetPath(t, path, value), path) == Some(Leaf(value))
    decreases |path|
  {
    if |path| > 1 {
      SetPathStores(ChildObject(t, path[0]), path[1..], value);
    }
  }

  /** A write leaves every path that diverges from its own as it was. */
  lemma {:induction false} SetPathFrame(t: Object, path: seq<string>, value: string, q: seq<string>)
    requires Diverge(path, q)
    ensures Lookup(SetPath(t, path, value), q) == Lookup(t, q)
    decreases |path|
  {
    if path[0] == q[0] {
      var c := ChildObject(t, path[0]);
      DivergeTail(path, q);
      SetPathFrame(c, path[1..], value, q[1..]);
      if !(path[0] in t && t[path[0]].Node?) {
        assert Lookup(c, q[1..]) == None;
      }
    }
  }

  /**
   * Each proper prefix of the written path ends up an object. When it was an
   * object already it keeps its other entries; when it was missing or a
   * string it holds only the new branch.
   */
  lemma {:induction false} SetPathPrefixNodes(t: Object, path: seq<string>, value: string, j: nat)
    requires j < |path|
    ensures Lookup(SetPath(t, path, value), path[..j]).Some?
    ensures Lookup(SetPath(t, path, value), path[..j]).value.Node?
    ensures var m' := Lookup(SetPath(t, path, value), path[..j]).value.m;
            match Lookup(t, path[..j])
            case Some(Node(m)) =>
              m'.Keys == m.Keys + {path[j]} && forall k :: k in m && k != path[j] ==> m'[k] == m[k]
            case _ => m'.Keys == {path[j]}
    decreases |path|
  {
    if j > 0 {
      var c := ChildObject(t, path[0]);
      SetPathPrefixNodes(c, path[1..], value, j - 1);
      assert path[..j][1..] == path[1..][..j - 1];
      if !(path[0] in t && t[path[0]].Node?) {
        assert Lookup(c, path[1..][..j - 1]) == if j == 1 then Some(Node(map[])) else None;
      }
    }
  }

  // ---------------------------------------------------------------------
  // How two writes interact
  // ---------------------------------------------------------------------

  /**
   * A write to a path shadows an earlier write to the same path or to any
   * extension of it: the earlier write leaves no trace.
   */
  lemma {:induction false} SetPathShadows(t: Object, path: seq<string>, ext: seq<string>, first: string, second: string)
    requires path != []
    ensures SetPath(SetPath(t, path + ext, first), path, second) == SetPath(t, path, second)
    decreases |path|
  {
    if |path| > 1 {
      var c := ChildObject(t, path[0]);
      assert (path + ext)[1..] == path[1..] + ext;
      SetPathShadows(c, path[1..], ext, first, second);
    } else if ext != [] {
      assert (path + ext)[0] == path[0];
    }
  }

  /**
   * A write below an earlier string turns that string into an object that
   * holds only the new branch.
   */
  lemma SetPathExtends(t: Object, path: seq<string>, ext: seq<string>, first: string, second: string)
    requires path != [] && ext != []
    ensures var r := SetPath(SetPath(t, path, first), path + ext, second);
            Lookup(r, path + ext) == Some(Leaf(second)) &&
            Lookup(r, path).Some? && Lookup(r, path).value.Node? &&
            Lookup(r, path).value.m.Keys == {ext[0]}
  {
    var t1 := SetPath(t, path, first);
    SetPathStores(t1, path + ext, second);
    SetPathStores(t, path, first);
    SetPathPrefixNodes(t1, path + ext, second, |path|);
    assert (path + ext)[..|path|] == path;
    assert (path + ext)[|path|] == ext[0];
  }

  /** Writes under different top-level keys commute. */
  lemma SetPathCommuteApart(t: Object, p: seq<string>, v: string, q: seq<string>, w: string)
    requires p != [] && q != [] && p[0] != q[0]
    ensures SetPath(SetPath(t, p, v), q, w) == SetPath(SetPath(t, q, w), p, v)
  {
  }

  /** Writes to diverging paths commute. */
  lemma {:induction false} SetPathCommute(t: Object, p: seq<string>, v: string, q: seq<string>, w: string)
    requires Diverge(p, q)
    ensures SetPath(SetPath(t, p, v), q, w) == SetPath(SetPath(t, q, w), p, v)
    decreases |p|
  {
    if p[0] != q[0] {
      SetPathCommuteApart(t, p, v, q, w);
    } else {
      DivergeTail(p, q);
      var c := ChildObject(t, p[0]);
      SetPathCommute(c, p[1..], v, q[1..], w);
      SetPathCommuteBelow(t, p, v, q, w);
    }
  }

  /** One level of SetPathCommute: commuting below a shared first segment commutes at the top. */
  lemma SetPathCommuteBelow(t: Object, p: seq<string>, v: string, q: seq<string>, w: string)
    requires |p| > 1 && |q| > 1 && p[0] == q[0]
    requires var c := ChildObject(t, p[0]);
             SetPath(SetPath(c, p[1..], v), q[1..], w) == SetPath(SetPath(c, q[1..], w), p[1..], v)
    ensures SetPath(SetPath(t, p, v), q, w) == SetPath(SetPath(t, q, w), p, v)
  {
    SetPathTwiceBelow(t, p, v, q, w);
    SetPathTwiceBelow(t, q, w, p, v);
  }

  /** Two writes through the same first segment are two writes into that child object. */
  lemma SetPathTwiceBelow(t: Object, p: seq<string>, v: string, q: seq<string>, w: string)
    requires |p| > 1 && |q| > 1 && p[0] == q[0]
    ensures SetPath(SetPath(t, p, v), q, w)
         == t[p[0] := Node(SetPath(SetPath(ChildObject(t, p[0]), p[1..], v), q[1..], w))]
  {
  }

  // ---------------------------------------------------------------------
  // setNestedValue on dotted keys
  // ---------------------------------------------------------------------

  /** After setNestedValue, the key's segments lead to the written string. */
  lemma SetNestedValueStores(t: Object, dottedKey: string, value: string)
    requires Segments(dottedKey) != []
    ensures Lookup(SetNestedValue(t, dottedKey, value), Segments(dottedKey)) == Some(Leaf(value))
  {
    SetPathStores(t, Segments(dottedKey), value);
  }

  /** Writing the same value at the same key twice is writing it once. */
  lemma SetNestedValueTwice(t: Object, dottedKey: string, value: string)
    ensures SetNestedValue(SetNestedValue(t, dottedKey, value), dottedKey, value) == SetNestedValue(t, dottedKey, value)
  {
    var p := Segments(dottedKey);
    if p != [] {
      assert p + [] == p;
      SetPathShadows(t, p, [], value, value);
    }
  }

  /** Empty segments are ignored: `a..b`, `.a.b` and `a.b` write the same place. */
  lemma SetNestedValueIgnoresEmptySegments(t: Object, a: string, b: string, value: string)
    requires a != "" && '.' !in a && b != "" && '.' !in b
    ensures SetNestedValue(t, a + ".." + b, value) == SetNestedValue(t, a + "." + b, value)
    ensures SetNestedValue(t, "." + a + "." + b, value) == SetNestedValue(t, a + "." + b, value)
  {
    EmptySegmentsIgnored(a, b);
  }

  /** A key with no non-empty segment (such as `"."` or `".."`) leaves the tree unchanged. */
  lemma SetNestedValueDotsOnly(t: Object, dottedKey: string, value: string)
    requires forall i :: 0 <= i < |dottedKey| ==> dottedKey[i] == '.'
    ensures SetNestedValue(t, dottedKey, value) == t
  {
    DotsOnlyHaveNoSegments(dottedKey);
  }

  /**
   * The overwrite order law: writing `a.b` then `a.b.c` leaves `a.b` an
   * object holding just `c`; writing them the other way round leaves `a.b`
   * the string and `c` gone.
   */
  lemma OverwriteOrder(t: Object, a: string, b: string, c: string, v: string, w: string)
    requires a != "" && '.' !in a && b != "" && '.' !in b && c != "" && '.' !in c
    ensures var r := SetNestedValue(SetNestedValue(t, a + "." + b, v), a + "." + b + "." + c, w);
            Lookup(r, [a, b]).Some? && Lookup(r, [a, b]).value == Node(map[c := Leaf(w)])
    ensures var r := SetNestedValue(SetNestedValue(t, a + "." + b + "." + c, w), a + "." + b, v);
            Lookup(r, [a, b]) == Some(Leaf(v)) && Lookup(r, [a, b, c]) == None
  {
    DottedPaths(a, b, c);
    DeeperWriteLast(t, a, b, c, v, w);
    ShallowerWriteLast(t, a, b, c, v, w);
  }

  /** `a.b` and `a.b.c` denote the paths `[a, b]` and `[a, b, c]`. */
  lemma DottedPaths(a: string, b: string, c: string)
    requires a != "" && '.' !in a && b != "" && '.' !in b && c != "" && '.' !in c
    ensures Segments(a + "." + b) == [a, b]
    ensures Segments(a + "." + b + "." + c) == [a, b, c]
  {
    SegmentsOfJoin([a, b]);
    SegmentsOfJoin([a, b, c]);
    assert Join([a, b], '.') == a + "." + b by { assert [a, b][1..] == [b]; }
    assert Join([b, c], '.') == b + "." + c by { assert [b, c][1..] == [c]; }
    assert Join([a, b, c], '.') == a + "." + b + "." + c by {
      assert [a, b, c][1..] == [b, c];
    }
  }

  /** OverwriteOrder on paths, the deeper write last. */
  lemma DeeperWriteLast(t: Object, a: string, b: string, c: string, v: string, w: string)
    ensures var r := SetPath(SetPath(t, [a, b], v), [a, b, c], w);
            Lookup(r, [a, b]).Some? && Lookup(r, [a, b]).value == Node(map[c := Leaf(w)])
  {
    assert [a, b] + [c] == [a, b, c];
    SetPathExtends(t, [a, b], [c], v, w);
    var r := SetPath(SetPath(t, [a, b], v), [a, b, c], w);
    var n := Lookup(r, [a, b]).value;
    assert Lookup(r, [a, b, c]) == Some(Leaf(w));
    LookupStep(r, [a, b], c);
    assert n.m == map[c := Leaf(w)];
  }

  /** OverwriteOrder on paths, the shallower write last. */
  lemma ShallowerWriteLast(t: Object, a: string, b: string, c: string, v: string, w: string)
    ensures var r := SetPath(SetPath(t, [a, b, c], w), [a, b], v);
            Lookup(r, [a, b]) == Some(Leaf(v)) && Lookup(r, [a, b, c]) == None
  {
    assert [a, b] + [c] == [a, b, c];
    SetPathShadows(t, [a, b], [c], w, v);
    SetPathStores(t, [a, b], v);
    LookupThroughLeaf(SetPath(t, [a, b], v), [a, b], [c]);
  }

  /** Looking one segment further into an object reads that object's entry. */
  lemma {:induction false} LookupStep(t: Object, path: seq<string>, k: string)
    requires Lookup(t, path).Some? && Lookup(t, path).value.Node?
    ensures Lookup(t, path + [k]) ==
              var m := Lookup(t, path).value.m;
              if k in m then Some(m[k]) else None
    decreases |path|
  {
    if path != [] {
      assert (path + [k])[1..] == path[1..] + [k];
      LookupStep(t[path[0]].m, path[1..], k);
    }
  }

  /** Nothing lies below a string. */
  lemma {:induction false} LookupThroughLeaf(t: Object, path: seq<string>, ext: seq<string>)
    requires Lookup(t, path).Some? && Lookup(t, path).value.Leaf?
    requires ext != []
    ensures Lookup(t, path + ext) == None
    decreases |path|
  {
    assert path != [];
    assert (path + ext)[0] == path[0];
    if |path| > 1 {
      assert (path + ext)[1..] == path[1..] + ext;
      LookupThroughLeaf(t[path[0]].m, path[1..], ext);
    }
  }

  // ---------------------------------------------------------------------
  // Stored strings keep the line-break-free form
  // ---------------------------------------------------------------------

  /** No string anywhere in the tree holds a carriage return or a line feed. */
  predicate NoLineBreaks(t: Object) {
    forall k :: k in t ==> TreeNoLineBreaks(t[k])
  }

  predicate TreeNoLineBreaks(n: Tree) {
    match n
    case Leaf(s) => '\r' !in s && '\n' !in s
    case Node(m) => forall k :: k in m ==> TreeNoLineBreaks(m[k])
  }

  /** Writing a line-break-free string keeps the whole tree line-break-free. */
  lemma {:induction false} SetPathKeepsNoLineBreaks(t: Object, path: seq<string>, value: string)
    requires NoLineBreaks(t)
    requires '\r' !in value && '\n' !in value
    ensures NoLineBreaks(SetPath(t, path, value))
    decreases |path|
  {
    if |path| > 1 {
      SetPathKeepsNoLineBreaks(ChildObject(t, path[0]), path[1..], value);
    }
  }
}
