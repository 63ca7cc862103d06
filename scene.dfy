/** What the engine reads from the host scene and physics world. None of it
    is computed by the engine; the model takes it as given inputs. */
module Scene {
  import opened Basics
  import opened Wrappers

  /** One entry of a RaycastAll / SphereCastAll result: the hit collider's
      attached rigid body (None when it has none or it was destroyed), and
      the squared distance from that body's position to the field's origin. */
  datatype Hit = Hit(body: Option<Handle>, sqrDist: real)

  /** The physics answer to one selection method's query in this tick:
      `hits` for the ray and sphere casts, `overlap` (the attached rigid
      body of every collider found) for the overlap queries. */
  datatype QueryAnswer = QueryAnswer(hits: seq<Hit>, overlap: seq<Option<Handle>>)
}
