/** The records the server sends to the canvas over the WebSocket. */
module Diagrams {
  import opened Wrappers

  /** One rendered diagram: `index` is its block's position in the document, `title`
      the block's label, `dataUrl` the rendered SVG as a data URL. */
  datatype Diagram = Diagram(index: nat, title: string, dataUrl: string)

  /** A WebSocket message `{ type, diagrams }`; `diagrams` is absent when the field is
      missing or null. */
  datatype Message = Message(kind: string, diagrams: Option<seq<Diagram>>)

  const UpdateKind := "update"
}
