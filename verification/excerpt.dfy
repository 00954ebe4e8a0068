/**
 * The `onCreateNode` build hook of the coaching theme: for every Contentful rich-text
 * node it parses the node's content as JSON, renders the document to plain text, keeps
 * the first 140 UTF-16 code units and attaches them to the node as the field `excerpt`.
 *
 * `JSON.parse` and the plain-text renderer are foreign code: they are parameters here,
 * `parse` partial (it returns None where `JSON.parse` throws) and `render` total.
 */
module Excerpt {
  import opened Js

  /** The number of code units `text.slice(0, 140)` keeps. */
  const ExcerptLength: nat := 140
  const ExcerptField: string := "excerpt"
  const RichTextMediaType: string := "text/richtext"
  const ContentfulOwner: string := "gatsby-source-contentful"

  /** `node.internal`: the plugin that owns the node, its media type, and the raw content `loadNodeContent` delivers. */
  datatype Internal = Internal(owner: string, mediaType: string, content: JsString)

  /** A build node: its id, its internal record and the fields plugins attached with `createNodeField`. */
  datatype Node = Node(id: string, internal: Internal, fields: map<string, JsString>)

  /** The arguments of one `createNodeField` call. */
  datatype NodeField = NodeField(node: Node, name: string, value: JsString)

  /** What one run of the hook does: return early, throw on malformed JSON, or create one field. */
  datatype HookOutcome = Skipped | ParseError | FieldCreated(field: NodeField)

  /** The guard: only rich-text nodes sourced from Contentful are processed. */
  predicate IsContentfulRichText(internal: Internal) {
    internal.mediaType == RichTextMediaType && internal.owner == ContentfulOwner
  }

  /** `text.slice(0, 140)`: a hard cut after 140 code units, no ellipsis and no word boundary. */
  function Truncate(text: JsString): (r: JsString)
    ensures |r| == Min(|text|, ExcerptLength)
    ensures r == text[..|r|]
  {
    SliceFromStart(text, ExcerptLength);
    Slice(text, 0, ExcerptLength)
  }

  /** One run of `onCreateNode` on `node`. */
  function OnCreateNode<Doc>(node: Node, parse: JsString -> Option<Doc>, render: Doc -> JsString): (r: HookOutcome)
    ensures r.Skipped? <==> !IsContentfulRichText(node.internal)
    ensures r.ParseError? <==> IsContentfulRichText(node.internal) && parse(node.internal.content).None?
    ensures r.FieldCreated? ==>
      var text := render(parse(node.internal.content).value);
      && r.field.node == node
      && r.field.name == ExcerptField
      && |r.field.value| == Min(|text|, ExcerptLength)
      && r.field.value == text[..|r.field.value|]
  {
    if !IsContentfulRichText(node.internal) then Skipped
    else
      match parse(node.internal.content)
      case None => ParseError
      case Some(doc) =>
        var text := render(doc);
        FieldCreated(NodeField(node, ExcerptField, Truncate(text)))
  }

  /** The effect of `createNodeField`: the named field of the given node is set to the value. */
  function CreateNodeField(f: NodeField): (n: Node)
    ensures n.id == f.node.id && n.internal == f.node.internal
    ensures f.name in n.fields && n.fields[f.name] == f.value
    ensures forall name :: name != f.name ==>
      (name in n.fields <==> name in f.node.fields) && (name in n.fields ==> n.fields[name] == f.node.fields[name])
  {
    f.node.(fields := f.node.fields[f.name := f.value])
  }

  /** The node as later build phases see it after the hook ran on it. */
  function Process<Doc>(node: Node, parse: JsString -> Option<Doc>, render: Doc -> JsString): (n: Node)
    ensures n.id == node.id && n.internal == node.internal
    ensures forall name :: name != ExcerptField ==>
      (name in n.fields <==> name in node.fields) && (name in n.fields ==> n.fields[name] == node.fields[name])
    ensures !OnCreateNode(node, parse, render).FieldCreated? ==> n == node
    ensures OnCreateNode(node, parse, render).FieldCreated? ==>
      ExcerptField in n.fields && n.fields[ExcerptField] == Truncate(render(parse(node.internal.content).value))
  {
    match OnCreateNode(node, parse, render)
    case FieldCreated(f) => CreateNodeField(f)
    case _ => node
  }

  /** Nodes of any other media type are left untouched. */
  lemma OtherMediaTypeUntouched<Doc>(node: Node, parse: JsString -> Option<Doc>, render: Doc -> JsString)
    requires node.internal.mediaType != RichTextMediaType
    ensures OnCreateNode(node, parse, render) == Skipped
    ensures Process(node, parse, render) == node
  {
  }

  /** Nodes owned by any other plugin are left untouched. */
  lemma OtherOwnerUntouched<Doc>(node: Node, parse: JsString -> Option<Doc>, render: Doc -> JsString)
    requires node.internal.owner != ContentfulOwner
    ensures OnCreateNode(node, parse, render) == Skipped
    ensures Process(node, parse, render) == node
  {
  }

  /** Content that is not valid JSON makes the hook throw before any field is written. */
  lemma MalformedContentWritesNothing<Doc>(node: Node, parse: JsString -> Option<Doc>, render: Doc -> JsString)
    requires IsContentfulRichText(node.internal)
    requires parse(node.internal.content).None?
    ensures OnCreateNode(node, parse, render) == ParseError
    ensures Process(node, parse, render) == node
  {
  }

  /**
   * On a Contentful rich-text node with valid content, exactly the field `excerpt` is written,
   * it holds the truncated plain text, and every other part of the node is kept.
   */
  lemma ProcessWritesOnlyExcerpt<Doc>(node: Node, parse: JsString -> Option<Doc>, render: Doc -> JsString)
    requires IsContentfulRichText(node.internal)
    requires parse(node.internal.content).Some?
    ensures var n := Process(node, parse, render);
      && n.id == node.id && n.internal == node.internal
      && ExcerptField in n.fields
      && n.fields[ExcerptField] == Truncate(render(parse(node.internal.content).value))
      && forall name :: name != ExcerptField ==>
           (name in n.fields <==> name in node.fields) && (name in n.fields ==> n.fields[name] == node.fields[name])
  {
  }

  /** Running the hook again on the node it produced changes nothing: the write is idempotent. */
  lemma ProcessIdempotent<Doc>(node: Node, parse: JsString -> Option<Doc>, render: Doc -> JsString)
    ensures Process(Process(node, parse, render), parse, render) == Process(node, parse, render)
  {
    var n := Process(node, parse, render);
    assert n.internal == node.internal;
    match OnCreateNode(node, parse, render)
    case FieldCreated(f) =>
      assert n.fields[ExcerptField := f.value] == n.fields;
    case _ =>
  }

  /** Text of at most 140 code units is kept whole; in particular empty text gives an empty excerpt. */
  lemma ShortTextKeptWhole(text: JsString)
    requires |text| <= ExcerptLength
    ensures Truncate(text) == text
  {
  }

  /** Longer text is cut to exactly its first 140 code units, with nothing appended. */
  lemma LongTextCut(text: JsString)
    requires |text| > ExcerptLength
    ensures Truncate(text) == text[..ExcerptLength]
  {
  }

  /** Truncating an excerpt again returns it unchanged. */
  lemma TruncateIdempotent(text: JsString)
    ensures Truncate(Truncate(text)) == Truncate(text)
  {
    ShortTextKeptWhole(Truncate(text));
  }

  /**
   * The cut counts code units, not characters: when the 140th code unit opens a surrogate
   * pair, the excerpt ends in that unpaired high surrogate.
   */
  lemma CutCanSplitSurrogatePair(text: JsString)
    requires |text| > ExcerptLength && IsHighSurrogate(text[ExcerptLength - 1])
    ensures |Truncate(text)| == ExcerptLength && IsHighSurrogate(Truncate(text)[ExcerptLength - 1])
  {
  }
}
