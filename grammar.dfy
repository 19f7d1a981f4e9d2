/** The rule documents that extensions hand to the engine, as already-parsed values.
    Every child element the engine walks keeps its place in a sequence, so document
    order is preserved; numeric attributes hold the value `toInt()` gave them (0 when
    the attribute is missing or malformed), string attributes are "" when missing. */
module Grammar {

  /** A child of a Keywords block: the texts of its children, by tag. */
  datatype Group =
    | Words(words: seq<string>)
    | NoWords(words: seq<string>)
    | OtherGroup

  /** A child of a Reply or Actions block. `text` is the element's whole text content
      (a `rep` pool takes the text of every sibling that follows it, whatever its tag);
      `children` are the texts of a condition's or an else's own child elements. */
  datatype Entry =
    | Rep(text: string)
    | Action(text: string)
    | Condition(ifAttr: string, text: string, children: seq<string>)
    | Else(text: string, children: seq<string>)
    | OtherEntry(text: string)

  /** A child of an Item. A nested `Item` is only consulted by follow-up matching. */
  datatype Block =
    | Prop(texts: seq<string>)
    | Keywords(minWord: int, maxWord: int, groups: seq<Group>)
    | Var(max: int, anchors: seq<string>)
    | Reply(entries: seq<Entry>)
    | Actions(entries: seq<Entry>)
    | SubItem(item: Item)
    | OtherBlock

  /** Any child of the document root; `id` and `needId` are "" when absent. */
  datatype Item = Item(id: string, needId: string, blocks: seq<Block>)

  /** A registered extension: its identifier and its rule document. */
  datatype Plugin = Plugin(iid: string, doc: seq<Item>)

  /** The texts a `rep` pool is drawn from: the texts of the entries, in order. */
  function Texts(es: seq<Entry>): (ts: seq<string>)
    ensures |ts| == |es|
    ensures forall k :: 0 <= k < |es| ==> ts[k] == es[k].text
  {
    seq(|es|, k requires 0 <= k < |es| => es[k].text)
  }
}
