/** What a controller action answers. */
module Mvc {
  import opened Entities

  /** The action a redirect points at. */
  datatype Route = ToIndex | ToCreate | ToEdit(id: Guid)

  datatype ActionResult =
    | NotFound          // 404
    | ShowForm          // the posted form is shown again
    | ShowPage          // the action's own view
    | Redirect(to: Route)
    | ServerError       // an exception escaped the action
}
