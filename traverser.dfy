/**
 * traverser.rb: the pre-order walk over the model hierarchy. The block the
 * source yields each instance path to is modelled by the sequence of
 * paths, in the order they are yielded.
 */
module Traverser {
  import opened Wrappers
  import opened Scene
  import opened InstancePathHelper

  /** The error `traverse` raises. */
  datatype TraversalError = ArgumentError(message: string)

  /** `instance?`: groups and component instances have entities of their own. */
  predicate IsInstance(e: Entity)
  {
    e.kind == Group || e.kind == ComponentInstance
  }

  // ---------------------------------------------------------------------------
  // sort_by { |e| e.bounds.min.z }
  // ---------------------------------------------------------------------------

  predicate SortedByMinZ(s: seq<Entity>)
  {
    forall i, j | 0 <= i < j < |s| :: s[i].minZ <= s[j].minZ
  }

  function InsertByMinZ(e: Entity, s: seq<Entity>): (r: seq<Entity>)
    requires SortedByMinZ(s)
    ensures SortedByMinZ(r) && multiset(r) == multiset(s) + multiset{e}
    decreases |s|
  {
    if s == [] then [e]
    else if e.minZ <= s[0].minZ then [e] + s
    else
      var rest := InsertByMinZ(e, s[1..]);
      InsertedAbove(e, s, rest);
      assert s == [s[0]] + s[1..];
      [s[0]] + rest
  }

  lemma InsertedAbove(e: Entity, s: seq<Entity>, rest: seq<Entity>)
    requires SortedByMinZ(s) && s != [] && e.minZ > s[0].minZ
    requires SortedByMinZ(rest) && multiset(rest) == multiset(s[1..]) + multiset{e}
    ensures SortedByMinZ([s[0]] + rest)
  {
    var r := [s[0]] + rest;
    forall j | 0 < j < |r| ensures s[0].minZ <= r[j].minZ {
      assert r[j] == rest[j - 1];
      assert r[j] in multiset(rest);
      if r[j] != e {
        assert r[j] in s[1..];
      }
    }
    forall i, j | 0 <= i < j < |r| ensures r[i].minZ <= r[j].minZ {
      if i > 0 {
        assert r[i] == rest[i - 1] && r[j] == rest[j - 1];
      }
    }
  }

  /** The siblings ordered by the lowest z of their bounds, bottom first. */
  function SortByMinZ(s: seq<Entity>): (r: seq<Entity>)
    ensures SortedByMinZ(r) && multiset(r) == multiset(s)
    ensures forall e | e in r :: e in s
    decreases |s|
  {
    if s == [] then []
    else
      var r := InsertByMinZ(s[0], SortByMinZ(s[1..]));
      SameElements(s, r);
      r
  }

  lemma SameElements(s: seq<Entity>, r: seq<Entity>)
    requires s != [] && multiset(r) == multiset(s[1..]) + multiset{s[0]}
    ensures multiset(r) == multiset(s) && forall e | e in r :: e in s
  {
    assert s == [s[0]] + s[1..];
    forall e | e in r ensures e in s {
      assert e in multiset(r);
    }
  }

  // ---------------------------------------------------------------------------
  // traverse and traverse_with_backtrace
  // ---------------------------------------------------------------------------

  /**
   * `traverse_with_backtrace`: the paths yielded for `entities`, which sit
   * below the instance path `backtrace`.
   */
  function Walk(entities: seq<Entity>, backtrace: InstancePath, wysiwyg: bool): seq<InstancePath>
    decreases entities, 1
  {
    VisitEach(entities, SortByMinZ(entities), backtrace, wysiwyg)
  }

  /**
   * The loop of `traverse_with_backtrace` over the sorted siblings still to
   * visit: a visible entity's path is yielded, then an instance's own
   * entities are walked, then the later siblings follow.
   */
  function VisitEach(entities: seq<Entity>, pending: seq<Entity>, backtrace: InstancePath, wysiwyg: bool): seq<InstancePath>
    requires forall e | e in pending :: e in entities
    decreases entities, 0, |pending|
  {
    if pending == [] then []
    else
      var entity := pending[0];
      var path := backtrace + [entity];
      var later := VisitEach(entities, pending[1..], backtrace, wysiwyg);
      if !ResolveVisibility(path) then later
      else if !IsInstance(entity) then [path] + later
      else
        assert entity in entities;
        [path] + Walk(entity.children, path, wysiwyg) + later
  }

  /**
   * `traverse`: without a block it raises `ArgumentError` before visiting
   * anything; with one, the paths yielded are exactly the paths that reach
   * a visible entity through visible instances, starting from `entities`.
   */
  function Traverse(entities: seq<Entity>, wysiwyg: bool, blockGiven: bool): (r: Result<seq<InstancePath>, TraversalError>)
    ensures r.Failure? <==> !blockGiven
    ensures !blockGiven ==> r.error == ArgumentError("No block given.")
    ensures blockGiven && entities == [] ==> r == Success([])
    ensures r.Success? ==> forall p :: p in r.value <==> Reaches(entities, [], p)
  {
    if !blockGiven then Failure(ArgumentError("No block given."))
    else
      WalkExact(entities, [], wysiwyg);
      Success(Walk(entities, [], wysiwyg))
  }

  // ---------------------------------------------------------------------------
  // Which paths are yielded
  // ---------------------------------------------------------------------------

  /**
   * The reference description of a yielded path: it extends `backtrace` by
   * one of `entities` and is visible there, and if it goes deeper, it does
   * so through an instance, into the entities of its definition.
   */
  predicate Reaches(entities: seq<Entity>, backtrace: InstancePath, path: InstancePath)
    decreases |path| - |backtrace|
  {
    |path| > |backtrace| && path[..|backtrace|] == backtrace && path[|backtrace|] in entities
    && ResolveVisibility(path[..|backtrace| + 1])
    && (|path| == |backtrace| + 1
        || (IsInstance(path[|backtrace|])
            && Reaches(path[|backtrace|].children, path[..|backtrace| + 1], path)))
  }

  lemma {:induction false} WalkSound(entities: seq<Entity>, backtrace: InstancePath, wysiwyg: bool)
    ensures forall p | p in Walk(entities, backtrace, wysiwyg) :: Reaches(entities, backtrace, p)
    decreases entities, 1
  {
    VisitSound(entities, SortByMinZ(entities), backtrace, wysiwyg);
  }

  lemma {:induction false} VisitSound(entities: seq<Entity>, pending: seq<Entity>, backtrace: InstancePath, wysiwyg: bool)
    requires forall e | e in pending :: e in entities
    ensures forall p | p in VisitEach(entities, pending, backtrace, wysiwyg) :: Reaches(entities, backtrace, p)
    decreases entities, 0, |pending|
  {
    if pending != [] {
      var entity := pending[0];
      var path := backtrace + [entity];
      VisitSound(entities, pending[1..], backtrace, wysiwyg);
      if ResolveVisibility(path) {
        assert path[..|backtrace|] == backtrace && path[..|backtrace| + 1] == path;
        assert Reaches(entities, backtrace, path);
        if IsInstance(entity) {
          WalkSound(entity.children, path, wysiwyg);
          forall p | p in Walk(entity.children, path, wysiwyg)
            ensures Reaches(entities, backtrace, p)
          {
            assert p[..|path|] == path;
            assert p[..|backtrace|] == path[..|backtrace|];
            assert p[..|backtrace| + 1] == path;
          }
        }
      }
    }
  }

  lemma {:induction false} WalkComplete(entities: seq<Entity>, backtrace: InstancePath, wysiwyg: bool, p: InstancePath)
    requires Reaches(entities, backtrace, p)
    ensures p in Walk(entities, backtrace, wysiwyg)
    decreases entities, 1
  {
    var sorted := SortByMinZ(entities);
    assert p[|backtrace|] in multiset(sorted);
    VisitComplete(entities, sorted, backtrace, wysiwyg, p);
  }

  lemma {:induction false} VisitComplete(entities: seq<Entity>, pending: seq<Entity>, backtrace: InstancePath, wysiwyg: bool, p: InstancePath)
    requires forall e | e in pending :: e in entities
    requires Reaches(entities, backtrace, p) && p[|backtrace|] in pending
    ensures p in VisitEach(entities, pending, backtrace, wysiwyg)
    decreases entities, 0, |pending|
  {
    var entity := pending[0];
    var path := backtrace + [entity];
    if entity == p[|backtrace|] {
      assert path == p[..|backtrace| + 1];
      if |p| == |backtrace| + 1 {
        assert p == path;
      } else {
        WalkComplete(entity.children, path, wysiwyg, p);
      }
    } else {
      VisitComplete(entities, pending[1..], backtrace, wysiwyg, p);
    }
  }

  /** The paths the walk yields are exactly those `Reaches` describes. */
  lemma WalkExact(entities: seq<Entity>, backtrace: InstancePath, wysiwyg: bool)
    ensures forall p :: p in Walk(entities, backtrace, wysiwyg) <==> Reaches(entities, backtrace, p)
  {
    WalkSound(entities, backtrace, wysiwyg);
    forall p | Reaches(entities, backtrace, p)
      ensures p in Walk(entities, backtrace, wysiwyg)
    {
      WalkComplete(entities, backtrace, wysiwyg, p);
    }
  }

  /**
   * A yielded path extends the backtrace by at least one entity of the
   * walked collection, is visible as a whole, and every entity between
   * the backtrace and its last one is an instance that was descended into.
   */
  lemma {:induction false} ReachesShape(entities: seq<Entity>, backtrace: InstancePath, p: InstancePath)
    requires Reaches(entities, backtrace, p)
    ensures |p| > |backtrace| && p[..|backtrace|] == backtrace && p[|backtrace|] in entities
    ensures ResolveVisibility(p)
    ensures forall k | |backtrace| <= k < |p| - 1 :: IsInstance(p[k])
    decreases |p| - |backtrace|
  {
    if |p| == |backtrace| + 1 {
      assert p[..|backtrace| + 1] == p;
    } else {
      ReachesShape(p[|backtrace|].children, p[..|backtrace| + 1], p);
    }
  }

  /** The parent path of a yielded path deeper than one level is yielded too. */
  lemma {:induction false} ReachesParent(entities: seq<Entity>, backtrace: InstancePath, p: InstancePath)
    requires Reaches(entities, backtrace, p) && |p| > |backtrace| + 1
    ensures Reaches(entities, backtrace, p[..|p| - 1])
    decreases |p| - |backtrace|
  {
    var q := p[..|p| - 1];
    assert q[..|backtrace|] == backtrace && q[..|backtrace| + 1] == p[..|backtrace| + 1];
    if |p| > |backtrace| + 2 {
      ReachesParent(p[|backtrace|].children, p[..|backtrace| + 1], p);
    } else {
      assert q == p[..|backtrace| + 1];
    }
  }

  /**
   * Every yielded path is visible and extends its backtrace, and an entity
   * whose path is not visible has nothing yielded below it.
   */
  lemma InvisibleSkipped(entities: seq<Entity>, backtrace: InstancePath, wysiwyg: bool, q: InstancePath)
    requires !ResolveVisibility(q)
    ensures forall p | p in Walk(entities, backtrace, wysiwyg) :: ResolveVisibility(p)
    ensures forall p | p in Walk(entities, backtrace, wysiwyg) :: |q| > |p| || p[..|q|] != q
  {
    WalkExact(entities, backtrace, wysiwyg);
    forall p | p in Walk(entities, backtrace, wysiwyg)
      ensures ResolveVisibility(p) && (|q| > |p| || p[..|q|] != q)
    {
      ReachesShape(entities, backtrace, p);
      if |q| <= |p| {
        VisibilityOfPrefix(p, |q|);
      }
    }
  }

  // ---------------------------------------------------------------------------
  // In which order
  // ---------------------------------------------------------------------------

  /** Every path deeper than `depth + 1` has its parent path earlier in `paths`. */
  predicate ParentsFirst(paths: seq<InstancePath>, depth: nat)
  {
    forall j | 0 <= j < |paths| && |paths[j]| > depth + 1 ::
      exists i | 0 <= i < j :: paths[i] == paths[j][..|paths[j]| - 1]
  }

  lemma ParentsFirstJoin(a: seq<InstancePath>, b: seq<InstancePath>, depth: nat)
    requires ParentsFirst(a, depth) && ParentsFirst(b, depth)
    ensures ParentsFirst(a + b, depth)
  {
    var ab := a + b;
    forall j | 0 <= j < |ab| && |ab[j]| > depth + 1
      ensures exists i | 0 <= i < j :: ab[i] == ab[j][..|ab[j]| - 1]
    {
      if j < |a| {
        var i :| 0 <= i < j && a[i] == a[j][..|a[j]| - 1];
        assert ab[i] == a[i];
      } else {
        assert ab[j] == b[j - |a|];
        var i :| 0 <= i < j - |a| && b[i] == b[j - |a|][..|b[j - |a|]| - 1];
        assert ab[|a| + i] == b[i];
      }
    }
  }

  /** A container's path followed by the walk below it keeps parents first. */
  lemma ParentsFirstBelow(path: InstancePath, below: seq<InstancePath>)
    requires |path| >= 1 && ParentsFirst(below, |path|)
    requires forall p | p in below :: |p| > |path| && p[..|path|] == path
    ensures ParentsFirst([path] + below, |path| - 1)
  {
    var all := [path] + below;
    forall j | 0 <= j < |all| && |all[j]| > |path|
      ensures exists i | 0 <= i < j :: all[i] == all[j][..|all[j]| - 1]
    {
      assert all[j] == below[j - 1];
      ParentBelow(path, below, j - 1);
    }
  }

  lemma ParentBelow(path: InstancePath, below: seq<InstancePath>, k: nat)
    requires |path| >= 1 && ParentsFirst(below, |path|) && k < |below|
    requires forall p | p in below :: |p| > |path| && p[..|path|] == path
    ensures exists i | 0 <= i <= k :: ([path] + below)[i] == below[k][..|below[k]| - 1]
  {
    var all := [path] + below;
    var p := below[k];
    assert p in below;
    if |p| == |path| + 1 {
      assert all[0] == p[..|p| - 1];
    } else {
      var i :| 0 <= i < k && below[i] == p[..|p| - 1];
      assert all[i + 1] == below[i];
    }
  }

  /** Everything the walk below a container yields extends the container's path. */
  lemma WalkBelow(children: seq<Entity>, path: InstancePath, wysiwyg: bool)
    ensures forall p | p in Walk(children, path, wysiwyg) :: |p| > |path| && p[..|path|] == path
  {
    WalkExact(children, path, wysiwyg);
    forall p | p in Walk(children, path, wysiwyg) ensures |p| > |path| && p[..|path|] == path {
      ReachesShape(children, path, p);
    }
  }

  /**
   * Pre-order: a yielded path deeper than the first level comes after its
   * parent's path, that is, after the container it lies in.
   */
  lemma {:induction false} WalkPreOrder(entities: seq<Entity>, backtrace: InstancePath, wysiwyg: bool)
    ensures ParentsFirst(Walk(entities, backtrace, wysiwyg), |backtrace|)
    decreases entities, 1
  {
    VisitPreOrder(entities, SortByMinZ(entities), backtrace, wysiwyg);
  }

  lemma {:induction false} VisitPreOrder(entities: seq<Entity>, pending: seq<Entity>, backtrace: InstancePath, wysiwyg: bool)
    requires forall e | e in pending :: e in entities
    ensures ParentsFirst(VisitEach(entities, pending, backtrace, wysiwyg), |backtrace|)
    decreases entities, 0, |pending|
  {
    if pending != [] {
      var entity := pending[0];
      var path := backtrace + [entity];
      var later := VisitEach(entities, pending[1..], backtrace, wysiwyg);
      VisitPreOrder(entities, pending[1..], backtrace, wysiwyg);
      if ResolveVisibility(path) {
        var below := if IsInstance(entity) then Walk(entity.children, path, wysiwyg) else [];
        if IsInstance(entity) {
          assert entity in entities;
          WalkPreOrder(entity.children, path, wysiwyg);
          WalkBelow(entity.children, path, wysiwyg);
        }
        ParentsFirstBelow(path, below);
        ParentsFirstJoin([path] + below, later, |backtrace|);
        assert VisitEach(entities, pending, backtrace, wysiwyg) == [path] + below + later;
      }
    }
  }

  /** Pre-order in full: every ancestor path of a yielded path was yielded before it. */
  lemma {:induction false} AncestorsFirst(paths: seq<InstancePath>, depth: nat, j: nat, k: nat)
    requires ParentsFirst(paths, depth)
    requires j < |paths| && depth < k < |paths[j]|
    ensures exists i | 0 <= i < j :: paths[i] == paths[j][..k]
    decreases j
  {
    var p := paths[j];
    var i :| 0 <= i < j && paths[i] == p[..|p| - 1];
    if k < |p| - 1 {
      AncestorsFirst(paths, depth, i, k);
      var h :| 0 <= h < i && paths[h] == paths[i][..k];
      assert paths[h] == p[..k];
    }
  }

  /** Every path starts at position `depth` with an entity, taken in non-decreasing min-z order. */
  predicate OrderedAt(paths: seq<InstancePath>, depth: nat)
  {
    (forall i | 0 <= i < |paths| :: |paths[i]| > depth)
    && forall i, j | 0 <= i < j < |paths| :: paths[i][depth].minZ <= paths[j][depth].minZ
  }

  /**
   * Siblings are visited bottom first: the entity a yielded path goes
   * through at the walked level never has a lower min-z than the one of
   * an earlier path.
   */
  lemma WalkSiblingOrder(entities: seq<Entity>, backtrace: InstancePath, wysiwyg: bool)
    ensures OrderedAt(Walk(entities, backtrace, wysiwyg), |backtrace|)
  {
    VisitOrder(entities, SortByMinZ(entities), backtrace, wysiwyg);
  }

  lemma {:induction false} VisitOrder(entities: seq<Entity>, pending: seq<Entity>, backtrace: InstancePath, wysiwyg: bool)
    requires forall e | e in pending :: e in entities
    requires SortedByMinZ(pending)
    ensures OrderedAt(VisitEach(entities, pending, backtrace, wysiwyg), |backtrace|)
    decreases |pending|
  {
    if pending != [] {
      var d := |backtrace|;
      var entity := pending[0];
      var path := backtrace + [entity];
      var later := VisitEach(entities, pending[1..], backtrace, wysiwyg);
      VisitOrder(entities, pending[1..], backtrace, wysiwyg);
      VisitThrough(entities, pending[1..], backtrace, wysiwyg);
      LaterAbove(pending, later, d);
      if ResolveVisibility(path) {
        var below := if IsInstance(entity) then Walk(entity.children, path, wysiwyg) else [];
        if IsInstance(entity) {
          WalkBelow(entity.children, path, wysiwyg);
        }
        var head := [path] + below;
        HeadThrough(path, below, entity);
        OrderedJoin(head, later, d, entity.minZ);
        assert VisitEach(entities, pending, backtrace, wysiwyg) == head + later;
      }
    }
  }

  /** Every path yielded while visiting `pending` goes through one of `pending`. */
  lemma {:induction false} VisitThrough(entities: seq<Entity>, pending: seq<Entity>, backtrace: InstancePath, wysiwyg: bool)
    requires forall e | e in pending :: e in entities
    ensures forall p | p in VisitEach(entities, pending, backtrace, wysiwyg) :: |p| > |backtrace| && p[|backtrace|] in pending
    decreases |pending|
  {
    if pending != [] {
      var entity := pending[0];
      var path := backtrace + [entity];
      VisitThrough(entities, pending[1..], backtrace, wysiwyg);
      if ResolveVisibility(path) && IsInstance(entity) {
        WalkBelow(entity.children, path, wysiwyg);
        HeadThrough(path, Walk(entity.children, path, wysiwyg), entity);
      }
    }
  }

  /** The paths after the first pending entity go through entities no lower than it. */
  lemma LaterAbove(pending: seq<Entity>, later: seq<InstancePath>, d: nat)
    requires pending != [] && SortedByMinZ(pending)
    requires forall p | p in later :: |p| > d && p[d] in pending[1..]
    ensures forall p: InstancePath | p in later :: |p| > d && p[d].minZ >= pending[0].minZ
  {
    forall p: InstancePath | p in later ensures |p| > d && p[d].minZ >= pending[0].minZ {
      var k :| 0 <= k < |pending| - 1 && pending[1..][k] == p[d];
      assert pending[k + 1] == p[d];
    }
  }

  /** A path and the walk below it all go through the path's last entity. */
  lemma HeadThrough(path: InstancePath, below: seq<InstancePath>, entity: Entity)
    requires |path| >= 1 && path[|path| - 1] == entity
    requires forall p | p in below :: |p| > |path| && p[..|path|] == path
    ensures forall p | p in [path] + below :: |p| > |path| - 1 && p[|path| - 1] == entity
  {
    forall p | p in [path] + below ensures |p| > |path| - 1 && p[|path| - 1] == entity {
      if p in below {
        assert p[|path| - 1] == p[..|path|][|path| - 1];
      }
    }
  }

  lemma OrderedJoin(head: seq<InstancePath>, later: seq<InstancePath>, d: nat, z: real)
    requires forall p: InstancePath | p in head :: |p| > d && p[d].minZ == z
    requires OrderedAt(later, d)
    requires forall p: InstancePath | p in later :: p[d].minZ >= z
    ensures OrderedAt(head + later, d)
  {
    var all := head + later;
    forall i | 0 <= i < |all| ensures |all[i]| > d {
      if i >= |head| {
        assert all[i] == later[i - |head|];
      }
    }
    forall i, j | 0 <= i < j < |all| ensures all[i][d].minZ <= all[j][d].minZ {
      if j < |head| {
        assert all[i] in head && all[j] in head;
      } else if i < |head| {
        assert all[i] in head && all[j] == later[j - |head|];
      } else {
        assert all[i] == later[i - |head|] && all[j] == later[j - |head|];
      }
    }
  }

  // ---------------------------------------------------------------------------
  // wysiwyg
  // ---------------------------------------------------------------------------

  /** `wysiwyg` is passed down but never read: hidden entities are always skipped. */
  lemma {:induction false} WalkIgnoresWysiwyg(entities: seq<Entity>, backtrace: InstancePath)
    ensures Walk(entities, backtrace, true) == Walk(entities, backtrace, false)
    decreases entities, 1
  {
    VisitIgnoresWysiwyg(entities, SortByMinZ(entities), backtrace);
  }

  lemma {:induction false} VisitIgnoresWysiwyg(entities: seq<Entity>, pending: seq<Entity>, backtrace: InstancePath)
    requires forall e | e in pending :: e in entities
    ensures VisitEach(entities, pending, backtrace, true) == VisitEach(entities, pending, backtrace, false)
    decreases entities, 0, |pending|
  {
    if pending != [] {
      VisitIgnoresWysiwyg(entities, pending[1..], backtrace);
      var entity := pending[0];
      if IsInstance(entity) {
        assert entity in entities;
        WalkIgnoresWysiwyg(entity.children, backtrace + [entity]);
      }
    }
  }
}
