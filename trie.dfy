/** Aho–Corasick trie nodes (`llm_stream_processor/engine/trie.py`).

    A node is identified by the path it spells from the root: the compiled trie
    is a table from paths to node records, and a child "reference" is the path
    of the child. */
module Trie {
  import opened Wrappers

  /** Callbacks are opaque, comparable identities. */
  type CallbackId = nat

  /** An output entry: a keyword and the snapshot of its callback list. */
  datatype Entry = Entry(keyword: string, callbacks: seq<CallbackId>)

  /** `_Node`: children keyed by one character, an optional failure link, and
      the (keyword, callbacks) entries that end here. */
  datatype Node = Node(children: map<char, string>, fail: Option<string>, output: seq<Entry>)

  /** The nodes of a trie, each keyed by the path it spells. */
  type NodeMap = map<string, Node>

  /** `_Node()`: no children, no failure link until compile sets one, no output. */
  function NewNode(): (n: Node)
    ensures n.children == map[] && n.fail == None && n.output == []
  {
    Node(map[], None, [])
  }
}
