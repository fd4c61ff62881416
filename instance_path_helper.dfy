/**
 * instance_path_helper.rb: SketchUp's inheritance of materials and of
 * visibility along an instance path.
 */
module InstancePathHelper {
  import opened Wrappers
  import opened Scene

  /**
   * `resolve_material`: scanning from the leaf towards the root, the first
   * material found; nil when no entity of the path has one.
   */
  function ResolveMaterial(path: InstancePath): (m: Option<Material>)
    ensures m.None? <==> forall i | 0 <= i < |path| :: path[i].material.None?
    decreases |path|
  {
    if path == [] then None
    else if path[|path| - 1].material.Some? then path[|path| - 1].material
    else
      var m := ResolveMaterial(path[..|path| - 1]);
      assert forall j | 0 <= j < |path| - 1 :: path[..|path| - 1][j] == path[j];
      m
  }

  /**
   * `resolve_color`: the colour of the resolved material, or the model's
   * default face colour (`rendering_options["FaceFrontColor"]`) when no
   * entity of the path has a material.
   */
  function ResolveColor(path: InstancePath, faceFrontColor: Color): (c: Color)
    ensures (forall i | 0 <= i < |path| :: path[i].material.None?) ==> c == faceFrontColor
    ensures |path| > 0 && path[|path| - 1].material.Some? ==> c == path[|path| - 1].material.value.color
  {
    var material := ResolveMaterial(path);
    if material.Some? then material.value.color else faceFrontColor
  }

  /** `resolve_visibility?`: every entity of the path is unhidden and on a visible layer. */
  function ResolveVisibility(path: InstancePath): (visible: bool)
    ensures visible <==> forall i | 0 <= i < |path| :: !path[i].hidden && path[i].layerVisible
    decreases |path|
  {
    if path == [] then true
    else if path[0].hidden then false
    else if !path[0].layerVisible then false
    else
      var rest := ResolveVisibility(path[1..]);
      assert forall i | 1 <= i < |path| :: path[1..][i - 1] == path[i];
      rest
  }

  /**
   * The material is the one of the nearest entity, towards the leaf, that
   * has one: whatever the entities before it hold.
   */
  lemma {:induction false} NearestMaterialWins(path: InstancePath, i: nat)
    requires i < |path| && path[i].material.Some?
    requires forall j | i < j < |path| :: path[j].material.None?
    ensures ResolveMaterial(path) == path[i].material
    decreases |path|
  {
    if i < |path| - 1 {
      var init := path[..|path| - 1];
      assert init[i] == path[i];
      NearestMaterialWins(init, i);
    }
  }

  /** The colour is the one of the nearest material towards the leaf. */
  lemma NearestColorWins(path: InstancePath, i: nat, faceFrontColor: Color)
    requires i < |path| && path[i].material.Some?
    requires forall j | i < j < |path| :: path[j].material.None?
    ensures ResolveColor(path, faceFrontColor) == path[i].material.value.color
  {
    NearestMaterialWins(path, i);
  }

  /** A leaf with a material of its own shows it, whatever its ancestors hold. */
  lemma LeafMaterialWins(ancestors: InstancePath, leaf: Entity)
    requires leaf.material.Some?
    ensures ResolveMaterial(ancestors + [leaf]) == leaf.material
  {
    NearestMaterialWins(ancestors + [leaf], |ancestors|);
  }

  /** A leaf without a material inherits from its ancestors. */
  lemma {:induction false} MaterialInherited(ancestors: InstancePath, leaf: Entity)
    requires leaf.material.None?
    ensures ResolveMaterial(ancestors + [leaf]) == ResolveMaterial(ancestors)
  {
    assert (ancestors + [leaf])[..|ancestors|] == ancestors;
  }

  /** Visibility of a joined path is the visibility of both parts. */
  lemma {:induction false} VisibilityOfJoin(a: InstancePath, b: InstancePath)
    ensures ResolveVisibility(a + b) <==> ResolveVisibility(a) && ResolveVisibility(b)
  {
    var ab := a + b;
    assert forall i | 0 <= i < |a| :: ab[i] == a[i];
    assert forall i | 0 <= i < |b| :: ab[|a| + i] == b[i];
    if ResolveVisibility(a) && ResolveVisibility(b) {
      forall i | 0 <= i < |ab| ensures !ab[i].hidden && ab[i].layerVisible {
        if i >= |a| {
          assert ab[i] == b[i - |a|];
        }
      }
    }
  }

  /** Extending a path can only make it invisible, never visible again. */
  lemma VisibilityOfExtension(path: InstancePath, e: Entity)
    ensures ResolveVisibility(path + [e]) ==> ResolveVisibility(path)
    ensures !ResolveVisibility(path) ==> !ResolveVisibility(path + [e])
  {
    VisibilityOfJoin(path, [e]);
  }

  /** Every prefix of a visible path is visible. */
  lemma VisibilityOfPrefix(path: InstancePath, k: nat)
    requires k <= |path| && ResolveVisibility(path)
    ensures ResolveVisibility(path[..k])
  {
    assert path == path[..k] + path[k..];
    VisibilityOfJoin(path[..k], path[k..]);
  }

  /** A one-entity path depends on that entity's own flags only. */
  lemma VisibilityOfSingle(e: Entity)
    ensures ResolveVisibility([e]) <==> !e.hidden && e.layerVisible
  {
    assert [e][0] == e;
  }
}
