/** Sockets, as far as this project needs them. */
module Connections {
  import opened Streams

  /** The sending side of a socket: the text sent so far, which is made of whole items. */
  class Connection {
    var sent: string
    ghost var items: seq<Item>

    ghost predicate Valid()
      reads this
    {
      sent == PrintItems(items)
    }

    constructor ()
      ensures Valid() && items == []
    {
      sent, items := "", [];
    }

    method Send(text: string, ghost item: Item)
      requires Valid() && text == PrintItem(item)
      modifies this
      ensures Valid() && sent == old(sent) + text && items == old(items) + [item]
    {
      PrintAppend(items, [item]);
      assert PrintItems([item]) == PrintItem(item) + PrintItems([]);
      sent := sent + text;
      items := items + [item];
    }
  }
}
