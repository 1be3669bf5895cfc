/**
 The printer and the parser together: a tree of items printed into a buffer and the
 resulting C string parsed again.
 */
module JsonDocument {
  import opened JsonItems
  import opened JsonList
  import opened JsonRoundTrip
  import opened JsonText
  import opened JsonTree
  import opened Wrappers
  import JsonParser
  import JsonPrinter

  /**
   Whenever printing succeeds, what comes back is a new tree of items that differs from
   the one printed at most in the key of its root, which is not printed. These items are
   items of no other value.
   */
  method Reparse(item: Item, style: Style, nulTerminated: bool,
                 ghost t: Shape, ghost key: Option<CString>, ghost v: Json)
    returns (printed: bool, back: Item?, ghost t': Option<Shape>)
    requires Means(item, t, key, v) && IntNumbers(v)
    ensures printed <==> CanPrint(v, style, 0) && |Text(v, style, 0)| + 2 <= INT_MAX
    ensures printed ==> JsonParser.IsNew(back, t', None, v) && fresh(Nodes(t'.value))
    ensures printed ==> Value(t'.value) == Value(t).(data := Value(t).data.(key := None))
    ensures printed ==> forall key', v' :: Value(t'.value) == TreeOf(key', v') ==> key' == None && v' == v
  {
    hide IsTree, Nodes, Text, CanPrint;
    NodesExist(t);
    var text := JsonPrinter.Print(item, style, t, key, v);
    if text == None { return false, null, None; }
    var parser := new JsonParser.ParseBuffer(text.value + "\0");
    back, t' := parser.ParseDocument(nulTerminated);
    DocumentRoundTrip(v, style, nulTerminated);
    printed := true;
    forall key', v' | Value(t'.value) == TreeOf(key', v') ensures key' == None && v' == v {
      ItemsTellTheValue(None, v, key', v');
    }
  }
}
