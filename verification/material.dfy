/** Materials of the stack (Sources/material.c). */
module Material {
  import opened Wrappers
  import opened Lists

  /** A material; the Next link is the position in the list, the Id may be NULL. */
  datatype Material = Material(id: Option<string>, specificHeat: real, thermalConductivity: real)

  /** init_material: on a non-NULL material, Id is NULL and both coefficients are 0. */
  function InitMaterial(m: Option<Material>): (r: Option<Material>)
    ensures r.None? <==> m.None?
    ensures r.Some? ==> r.value.id.None? && r.value.specificHeat == 0.0 && r.value.thermalConductivity == 0.0
  {
    match m
    case None => None
    case Some(_) => Some(Material(None, 0.0, 0.0))
  }

  /** The heap blocks a material owns: its Id string and the structure itself. */
  datatype Block = IdString | MaterialStruct

  /** free_material: releases the Id (free(NULL) does nothing) and the structure; NULL is a no-op. */
  function FreeMaterial(m: Option<Material>): (freed: set<Block>)
    ensures m.None? ==> freed == {}
    ensures m.Some? ==> MaterialStruct in freed && (IdString in freed <==> m.value.id.Some?)
  {
    match m
    case None => {}
    case Some(mat) => (if mat.id.Some? then {IdString} else {}) + {MaterialStruct}
  }

  /**
   * find_material_in_list: the first material whose Id equals id, or None.
   * strcmp needs both strings, so every Id in the list must be set.
   */
  function FindMaterialInList(list: seq<Material>, id: string): (r: Option<nat>)
    requires forall k :: 0 <= k < |list| ==> list[k].id.Some?
    ensures r.Some? ==> r.value < |list| && list[r.value].id == Some(id)
    ensures r.Some? ==> forall j :: 0 <= j < r.value ==> list[j].id != Some(id)
    ensures r.None? <==> forall j :: 0 <= j < |list| ==> list[j].id != Some(id)
  {
    FindFirst(list, (m: Material) => m.id == Some(id))
  }
}
