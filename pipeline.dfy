/** The server side of a document refresh: `processFile` reads the markdown file,
    extracts its blocks and renders each one; the `/render` handlers validate a single
    diagram request; refreshed diagrams are sent to the connected canvases. */
module Pipeline {
  import opened Wrappers
  import opened Diagrams
  import opened Extractor

  /** What `render` resolves to: the SVG, its base64 form and the data URL built from it. */
  datatype Rendered = Rendered(base64: string, dataUrl: string, svg: string)

  /** The external renderer: the result for a diagram source, or the message of the
      error it throws. */
  type Renderer = string -> Result<Rendered, string>

  /** Reading a file: its text, or `None` when `readFileSync` throws. */
  type Reader = string -> Option<string>

  // ---- processFile ----

  /** The diagrams of `blocks`, in order, for every block whose rendering succeeds;
      each keeps the position of its block as `index`. */
  function RenderAll(blocks: seq<Block>, render: Renderer): seq<Diagram>
    decreases |blocks|
  {
    if blocks == [] then []
    else
      var i := |blocks| - 1;
      var before := RenderAll(blocks[..i], render);
      match render(blocks[i].mermaid)
      case Success(r) => before + [Diagram(i, blocks[i].title, r.dataUrl)]
      case Failure(_) => before
  }

  /** What `processFile` resolves to: null without a file or when it cannot be read,
      otherwise the rendered diagrams of its blocks. */
  function ProcessResult(markdownFile: Option<string>, readFile: Reader, render: Renderer): Option<seq<Diagram>>
  {
    if markdownFile.None? then None
    else
      match readFile(markdownFile.value)
      case None => None
      case Some(content) => Some(RenderAll(Blocks(content), render))
  }

  /** The render loop of `processFile`: a block whose rendering throws is skipped and
      the loop goes on with the next one. */
  method RenderBlocks(blocks: seq<Block>, render: Renderer) returns (rendered: seq<Diagram>)
    ensures rendered == RenderAll(blocks, render)
  {
    rendered := [];
    for i := 0 to |blocks|
      invariant rendered == RenderAll(blocks[..i], render)
    {
      assert blocks[..i + 1][..i] == blocks[..i];
      var result := render(blocks[i].mermaid);
      if result.Success? {
        rendered := rendered + [Diagram(i, blocks[i].title, result.value.dataUrl)];
      }
    }
    assert blocks[..|blocks|] == blocks;
  }

  method ProcessFile(markdownFile: Option<string>, readFile: Reader, render: Renderer)
    returns (diagrams: Option<seq<Diagram>>)
    ensures diagrams == ProcessResult(markdownFile, readFile, render)
  {
    if markdownFile.None? {
      return None;
    }
    var content := readFile(markdownFile.value);
    if content.None? {
      return None;
    }
    var blocks := ExtractMermaidBlocks(content.value);
    var rendered := RenderBlocks(blocks, render);
    return Some(rendered);
  }

  /** Every entry comes from a block that rendered: its index is the block's position,
      its title the block's label and its data URL the renderer's. */
  lemma {:induction false} RenderedEntry(blocks: seq<Block>, render: Renderer, k: nat)
    requires k < |RenderAll(blocks, render)|
    ensures var d := RenderAll(blocks, render)[k];
            && d.index < |blocks|
            && render(blocks[d.index].mermaid).Success?
            && d.title == blocks[d.index].title
            && d.dataUrl == render(blocks[d.index].mermaid).value.dataUrl
    decreases |blocks|
  {
    var i := |blocks| - 1;
    var before := RenderAll(blocks[..i], render);
    if k < |before| {
      RenderedEntry(blocks[..i], render, k);
    }
  }

  /** Entries appear in block order, so their indices strictly increase. */
  lemma {:induction false} RenderedIncreasing(blocks: seq<Block>, render: Renderer, k: nat, l: nat)
    requires k < l < |RenderAll(blocks, render)|
    ensures RenderAll(blocks, render)[k].index < RenderAll(blocks, render)[l].index
    decreases |blocks|
  {
    var i := |blocks| - 1;
    var before := RenderAll(blocks[..i], render);
    if l < |before| {
      RenderedIncreasing(blocks[..i], render, k, l);
    } else {
      RenderedEntry(blocks[..i], render, k);
    }
  }

  /** A block that renders has an entry, whatever happened to the blocks around it. */
  lemma {:induction false} RenderedKept(blocks: seq<Block>, render: Renderer, j: nat)
    requires j < |blocks| && render(blocks[j].mermaid).Success?
    ensures exists k :: 0 <= k < |RenderAll(blocks, render)| && RenderAll(blocks, render)[k].index == j
    decreases |blocks|
  {
    var i := |blocks| - 1;
    var before := RenderAll(blocks[..i], render);
    var all := RenderAll(blocks, render);
    if j < i {
      RenderedKept(blocks[..i], render, j);
      var k :| 0 <= k < |before| && before[k].index == j;
      assert all[k] == before[k];
    } else {
      assert all[|before|].index == j;
    }
  }

  /** A block whose rendering fails has no entry. */
  lemma {:induction false} FailedOmitted(blocks: seq<Block>, render: Renderer, j: nat, k: nat)
    requires j < |blocks| && render(blocks[j].mermaid).Failure?
    requires k < |RenderAll(blocks, render)|
    ensures RenderAll(blocks, render)[k].index != j
  {
    RenderedEntry(blocks, render, k);
  }

  // ---- the /render handlers ----

  datatype Route = GetRender | PostRender

  datatype Reply = ErrorReply(error: string) | RenderReply(result: Rendered)

  datatype Response = Response(status: nat, body: Reply)

  function MissingInput(route: Route): string
  {
    match route
    case GetRender => "Missing mermaid query parameter"
    case PostRender => "Missing mermaid in request body"
  }

  /** `GET /render?mermaid=…` and `POST /render` with `{ mermaid }`: `mermaid` is the
      query parameter or body field, `None` when it is absent. */
  function HandleRender(route: Route, mermaid: Option<string>, render: Renderer): (r: Response)
    ensures r.status == 400 <==> mermaid.None? || mermaid.value == ""
    ensures r.status == 400 ==> r.body == ErrorReply(MissingInput(route))
    ensures r.status != 400 ==> r.status == (if render(mermaid.value).Success? then 200 else 500)
    ensures r.status == 500 ==> r.body == ErrorReply(render(mermaid.value).error)
    ensures r.status == 200 ==> r.body == RenderReply(render(mermaid.value).value)
  {
    if mermaid.None? || mermaid.value == "" then Response(400, ErrorReply(MissingInput(route)))
    else
      match render(mermaid.value)
      case Success(result) => Response(200, RenderReply(result))
      case Failure(message) => Response(500, ErrorReply(message))
  }

  /** The two routes answer alike; they differ only in the wording of the 400 error. */
  lemma RoutesAgree(mermaid: Option<string>, render: Renderer)
    ensures HandleRender(GetRender, mermaid, render).status == HandleRender(PostRender, mermaid, render).status
    ensures HandleRender(GetRender, mermaid, render).status != 400 ==>
              HandleRender(GetRender, mermaid, render) == HandleRender(PostRender, mermaid, render)
    ensures MissingInput(GetRender) != MissingInput(PostRender)
  {
    assert MissingInput(GetRender)[16] != MissingInput(PostRender)[16];
  }

  // ---- sending refreshed diagrams ----

  /** `if (diagrams) send({ type: 'update', diagrams })`: a refresh is sent whenever
      `processFile` did not resolve to null. An empty list is truthy and is sent. */
  function UpdateFor(diagrams: Option<seq<Diagram>>): (m: Option<Message>)
    ensures m.Some? <==> diagrams.Some?
    ensures m.Some? ==> m.value.kind == UpdateKind && m.value.diagrams == diagrams
  {
    if diagrams.Some? then Some(Message(UpdateKind, diagrams)) else None
  }

  /** Without a file, or with one that cannot be read, nothing is sent. */
  lemma NothingSentWithoutFile(markdownFile: Option<string>, readFile: Reader, render: Renderer)
    requires markdownFile.None? || readFile(markdownFile.value).None?
    ensures UpdateFor(ProcessResult(markdownFile, readFile, render)) == None
  {
  }

  /** A readable document without diagram fences still produces an update, with no
      diagrams, which clears the canvas. */
  lemma EmptyDocumentSent(file: string, readFile: Reader, render: Renderer)
    requires readFile(file).Some? && !JsText.Occurs(readFile(file).value, MermaidRegex.Fence)
    ensures UpdateFor(ProcessResult(Some(file), readFile, render)) == Some(Message(UpdateKind, Some([])))
  {
    BlocksNeedFence(readFile(file).value);
  }

  datatype Client = Client(id: nat, readyState: int)

  /** `WebSocket.OPEN` */
  const Open := 1

  datatype Delivery = Delivery(client: Client, message: Message)

  function OpenClients(clients: set<Client>): set<Client>
  {
    set c | c in clients && c.readyState == Open
  }

  function Recipients(sent: seq<Delivery>): set<Client>
  {
    set d | d in sent :: d.client
  }

  lemma OpenClientsAdd(visited: set<Client>, c: Client)
    ensures OpenClients(visited + {c}) == OpenClients(visited) + (if c.readyState == Open then {c} else {})
  {
  }

  lemma RecipientsAdd(sent: seq<Delivery>, d: Delivery)
    ensures Recipients(sent + [d]) == Recipients(sent) + {d.client}
  {
  }

  /** `broadcast`: sends `message` once to every open client, and to no other. */
  method Broadcast(clients: set<Client>, message: Message) returns (sent: seq<Delivery>)
    ensures Recipients(sent) == OpenClients(clients)
    ensures |sent| == |OpenClients(clients)|
    ensures forall d :: d in sent ==> d.message == message
  {
    sent := [];
    var remaining := clients;
    ghost var visited: set<Client> := {};
    while remaining != {}
      invariant remaining == clients - visited && visited <= clients
      invariant Recipients(sent) == OpenClients(visited)
      invariant |sent| == |Recipients(sent)|
      invariant forall d :: d in sent ==> d.message == message
      decreases |remaining|
    {
      var c :| c in remaining;
      OpenClientsAdd(visited, c);
      if c.readyState == Open {
        RecipientsAdd(sent, Delivery(c, message));
        sent := sent + [Delivery(c, message)];
      }
      remaining := remaining - {c};
      visited := visited + {c};
    }
  }
}
