/** One grid tile: a walkability flag toggled by a click, and the colour its
    sprite renderer shows for that flag. */
module Tiles {

  /** An RGBA colour; its channels are only ever copied, never computed with. */
  datatype Color = Color(r: real, g: real, b: real, a: real)

  const WHITE := Color(1.0, 1.0, 1.0, 1.0)
  const RED := Color(1.0, 0.0, 0.0, 1.0)

  /** The tile's sprite renderer: absent (null), or present showing a colour. */
  datatype Renderer = NoRenderer | Sprite(color: Color)

  /** Everything about a tile that the grid and a click can observe or change. */
  datatype TileState = TileState(
    name: string,
    walkable: bool,
    walkableColor: Color,
    blockedColor: Color,
    renderer: Renderer)

  /** The colour a tile in state s selects for its renderer. */
  function ChosenColor(s: TileState): (c: Color)
    ensures s.walkable ==> c == s.walkableColor
    ensures !s.walkable ==> c == s.blockedColor
  {
    if s.walkable then s.walkableColor else s.blockedColor
  }

  /** A tile's renderer, if present, shows the colour its flag selects. */
  ghost predicate ShowsState(s: TileState)
  {
    s.renderer.Sprite? ==> s.renderer.color == ChosenColor(s)
  }

  /** The effect of UpdateColor: only a present renderer is repainted. */
  function Repaint(s: TileState): (r: TileState)
    ensures ShowsState(r)
    ensures r.renderer.Sprite? <==> s.renderer.Sprite?
    ensures r.(renderer := s.renderer) == s
    ensures s.renderer == NoRenderer ==> r == s
  {
    if s.renderer.Sprite? then s.(renderer := Sprite(ChosenColor(s))) else s
  }

  /** The effect of a click: toggle the flag, then repaint. */
  function Click(s: TileState): (r: TileState)
    ensures r.walkable == !s.walkable
    ensures ShowsState(r)
    ensures r.name == s.name && r.walkableColor == s.walkableColor && r.blockedColor == s.blockedColor
    ensures r.renderer.Sprite? <==> s.renderer.Sprite?
  {
    Repaint(s.(walkable := !s.walkable))
  }

  /** Two clicks give back the flag; they give back the whole tile when its
      renderer already showed its flag. */
  lemma ClickTwice(s: TileState)
    ensures Click(Click(s)).walkable == s.walkable
    ensures ShowsState(s) ==> Click(Click(s)) == s
  {
    if ShowsState(s) && s.renderer.Sprite? {
      assert Click(Click(s)).renderer == Sprite(s.renderer.color);
    }
  }

  class Tile {
    var name: string
    var isWalkable: bool
    var walkableColor: Color
    var blockedColor: Color
    var renderer: Renderer

    ghost function State(): TileState
      reads this
    {
      TileState(name, isWalkable, walkableColor, blockedColor, renderer)
    }

    /** An instantiated tile: the field defaults (walkable, white, red), the
        renderer the sprite lookup found, then the repaint Awake performs. */
    constructor (name: string, hasRenderer: bool)
      ensures State() == TileState(name, true, WHITE, RED, if hasRenderer then Sprite(WHITE) else NoRenderer)
      ensures isWalkable && ShowsState(State())
    {
      this.name := name;
      isWalkable := true;
      walkableColor := WHITE;
      blockedColor := RED;
      renderer := if hasRenderer then Sprite(WHITE) else NoRenderer;
    }

    /** A click toggles the flag and repaints. */
    method OnMouseDown()
      modifies this
      ensures State() == Click(old(State()))
      ensures isWalkable == !old(isWalkable)
      ensures ShowsState(State())
    {
      isWalkable := !isWalkable;
      UpdateColor();
    }

    /** Repaints a present renderer with the colour the flag selects. */
    method UpdateColor()
      modifies this
      ensures State() == Repaint(old(State()))
      ensures ShowsState(State())
      ensures old(renderer) == NoRenderer ==> State() == old(State())
    {
      if renderer.Sprite? {
        renderer := Sprite(if isWalkable then walkableColor else blockedColor);
      }
    }
  }
}
