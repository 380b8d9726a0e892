/** `Tile`: one grid cell. It records where it is, whether it is solid, and
    for each side an optional wall texture and an optional detail overlay. */
module Tiles {
  import opened Numerics
  import opened Vectors
  import opened Textures

  /** The faces of a cell, plus its ceiling (`Top`) and floor (`Bottom`). */
  datatype Side = North | South | West | East | Top | Bottom

  /** A texture slot per side; `None` is the source's `null`. */
  type SideTextures = map<Side, Option<Texture>>

  /** The table a tile gets when none is supplied: every side empty. */
  const NoTextures: SideTextures :=
    map[North := None, South := None, West := None, East := None, Top := None, Bottom := None]

  /** The empty table names every side and holds no texture for any of them. */
  lemma NoTexturesIsEmptyOnEverySide(side: Side)
    ensures side in NoTextures && NoTextures[side] == None
  {
  }

  class Tile {
    var position: Vec2D
    const solid: bool
    var texture: SideTextures
    var detail: SideTextures

    /** `new Tile(position, solid, texture?, detail?)`: keeps the given
        values; a texture or detail table that is left out (or `null`) is
        replaced by the all-empty table. */
    constructor (position: Vec2D, solid: bool, texture: Option<SideTextures>, detail: Option<SideTextures>)
      ensures this.position == position && this.solid == solid
      ensures this.texture == if texture.Some? then texture.value else NoTextures
      ensures this.detail == if detail.Some? then detail.value else NoTextures
    {
      this.position := position;
      this.solid := solid;
      new;
      if texture.None? {
        this.texture := NoTextures;
      } else {
        this.texture := texture.value;
      }
      if detail.None? {
        this.detail := NoTextures;
      } else {
        this.detail := detail.value;
      }
    }
  }
}
