/** The network-map panel of the browser demo (wasmmod_js.go, notify
    callback).  The HTML is written into a buffer piece by piece; IP
    texts, key and status texts are opaque strings, and HTML escaping is
    an opaque function passed in.
 */
module NetmapHtml {
  import opened Seqs

  datatype Peer = Peer(name: string, ips: seq<string>)

  /** The fields of the network map the panel shows; `addresses` are the
      IP texts of the node's own addresses, in order. */
  datatype NetMap = NetMap(
    name: string,
    addresses: seq<string>,
    machineStatus: string,
    machineKey: string,
    nodeKey: string,
    peers: seq<Peer>)

  // ---------------------------------------------------------------------
  // Specification
  // ---------------------------------------------------------------------

  /** What the address loop writes for the address at index i. */
  function AddressItem(i: nat, ip: string): string
  {
    if i == 0 then "<b>" + ip + "</b>" else ", " + ip
  }

  /** What the address loop writes for the whole list. */
  function AddressItems(ips: seq<string>): string
  {
    if ips == [] then ""
    else AddressItems(ips[..|ips| - 1]) + AddressItem(|ips| - 1, ips[|ips| - 1])
  }

  /** A list of texts each preceded by ", ". */
  function CommaPrefixed(ips: seq<string>): string
  {
    if ips == [] then "" else ", " + ips[0] + CommaPrefixed(ips[1..])
  }

  /** The IP cell of a peer's row. */
  function FirstIp(p: Peer): string
  {
    if |p.ips| > 0 then p.ips[0] else ""
  }

  function Row(p: Peer, escape: string -> string): string
  {
    "<tr><td>" + FirstIp(p) + "</td><td>" + escape(p.name) + "</td></tr>\n"
  }

  /** What the peer loop writes: the rows of the peers, in order. */
  function Rows(peers: seq<Peer>, escape: string -> string): string
  {
    if peers == [] then ""
    else Rows(peers[..|peers| - 1], escape) + Row(peers[|peers| - 1], escape)
  }

  function AddressLine(ips: seq<string>): string
  {
    "<p>Addresses: " + AddressItems(ips) + "</p>"
  }

  function NetMapText(nm: NetMap, escape: string -> string): string
  {
    "<p>Name: <b>" + escape(nm.name) + "</b></p>\n"
    + "<p>Addresses: " + AddressItems(nm.addresses) + "</p>"
    + "<p>Machine: <b>" + nm.machineStatus + "</b>, " + nm.machineKey + "</p>\n"
    + "<p>Nodekey: " + nm.nodeKey + "</p>\n"
    + "<hr><table>" + Rows(nm.peers, escape) + "</table>"
  }

  // ---------------------------------------------------------------------
  // Properties
  // ---------------------------------------------------------------------

  /** The first address is in bold and every later one is preceded by ", ". */
  lemma {:induction false} AddressItemsShape(ips: seq<string>)
    requires ips != []
    ensures AddressItems(ips) == "<b>" + ips[0] + "</b>" + CommaPrefixed(ips[1..])
  {
    if |ips| > 1 {
      var init, last := ips[..|ips| - 1], ips[|ips| - 1];
      AddressItemsShape(init);
      assert init[0] == ips[0];
      assert init[1..] + [last] == ips[1..];
      CommaPrefixedSnoc(init[1..], last);
      assert AddressItem(|ips| - 1, last) == ", " + last;
      ShapeRegroup("<b>" + ips[0] + "</b>", CommaPrefixed(init[1..]), last);
    } else {
      assert ips[1..] == [];
      assert ips[..0] == [];
    }
  }

  /** The regrouping of one step of AddressItemsShape. */
  lemma ShapeRegroup(head: string, c: string, last: string)
    ensures (head + c) + (", " + last) == head + (c + ", " + last)
  {
    ConcatAssoc(c, ", ", last);
    ConcatAssoc(head, c, ", " + last);
  }

  lemma {:induction false} CommaPrefixedSnoc(ips: seq<string>, ip: string)
    ensures CommaPrefixed(ips + [ip]) == CommaPrefixed(ips) + ", " + ip
  {
    if ips == [] {
      assert [ip][1..] == [];
    } else {
      assert (ips + [ip])[1..] == ips[1..] + [ip];
      CommaPrefixedSnoc(ips[1..], ip);
    }
  }

  /** The address line is exactly "<p>Addresses: </p>" when, and only when,
      the node has no addresses. */
  lemma AddressLineEmpty(ips: seq<string>)
    ensures AddressLine(ips) == "<p>Addresses: </p>" <==> ips == []
  {
    if ips != [] {
      AddressItemsShape(ips);
      assert |AddressItems(ips)| > 0;
      assert |AddressLine(ips)| > |"<p>Addresses: </p>"|;
    }
  }

  /** The panel text line by line: the name line, the address line, then
      the key lines and the table.  With AddressLineEmpty, a node without
      addresses shows exactly "<p>Addresses: </p>". */
  lemma NetMapTextLines(nm: NetMap, escape: string -> string)
    ensures NetMapText(nm, escape) ==
      "<p>Name: <b>" + escape(nm.name) + "</b></p>\n"
      + AddressLine(nm.addresses)
      + "<p>Machine: <b>" + nm.machineStatus + "</b>, " + nm.machineKey + "</p>\n"
      + "<p>Nodekey: " + nm.nodeKey + "</p>\n"
      + "<hr><table>" + Rows(nm.peers, escape) + "</table>"
  {
    var name := "<p>Name: <b>" + escape(nm.name) + "</b></p>\n";
    var items := AddressItems(nm.addresses);
    ConcatAssoc(name, "<p>Addresses: " + items, "</p>");
    ConcatAssoc(name, "<p>Addresses: ", items);
    assert name + AddressLine(nm.addresses) == name + "<p>Addresses: " + items + "</p>";
  }

  /** The address items of a prefix one longer. */
  lemma AddressItemsStep(ips: seq<string>, i: nat)
    requires i < |ips|
    ensures AddressItems(ips[..i + 1]) == AddressItems(ips[..i]) + AddressItem(i, ips[i])
  {
    assert ips[..i + 1][..i] == ips[..i];
  }

  /** The rows of a list with one more peer at the end. */
  lemma RowsSnoc(peers: seq<Peer>, p: Peer, escape: string -> string)
    ensures Rows(peers + [p], escape) == Rows(peers, escape) + Row(p, escape)
  {
    var s := peers + [p];
    assert s[..|s| - 1] == peers;
  }

  /** Rows are written per peer and in peer order: the rows of a
      concatenation are the concatenation of the rows. */
  lemma {:induction false} RowsAppend(a: seq<Peer>, b: seq<Peer>, escape: string -> string)
    ensures Rows(a + b, escape) == Rows(a, escape) + Rows(b, escape)
    decreases |b|
  {
    if b == [] {
      assert a + b == a;
    } else {
      var init, last := b[..|b| - 1], b[|b| - 1];
      assert b == init + [last];
      assert a + b == (a + init) + [last];
      RowsSnoc(a + init, last, escape);
      RowsSnoc(init, last, escape);
      RowsAppend(a, init, escape);
      ConcatAssoc(Rows(a, escape), Rows(init, escape), Row(last, escape));
    }
  }

  /** A single peer yields a single row whose IP cell is the first address,
      or the empty text when the peer has no address. */
  lemma RowsSingle(p: Peer, escape: string -> string)
    ensures Rows([p], escape) == "<tr><td>" + (if p.ips == [] then "" else p.ips[0]) + "</td><td>" + escape(p.name) + "</td></tr>\n"
  {
    assert [p][..0] == [];
  }

  // ---------------------------------------------------------------------
  // The callback's buffer writes
  // ---------------------------------------------------------------------

  /** The address loop: appends the address items to buf. */
  method WriteAddresses(buf0: string, ips: seq<string>) returns (buf: string)
    ensures buf == buf0 + AddressItems(ips)
  {
    buf := buf0;
    for i := 0 to |ips|
      invariant buf == buf0 + AddressItems(ips[..i])
    {
      AddressItemsStep(ips, i);
      var item: string;
      if i == 0 {
        item := "<b>" + ips[i] + "</b>";
      } else {
        item := ", " + ips[i];
      }
      assert item == AddressItem(i, ips[i]);
      ConcatAssoc(buf0, AddressItems(ips[..i]), item);
      buf := buf + item;
    }
    assert ips[..|ips|] == ips;
  }

  /** The peer loop: appends one row per peer to buf. */
  method WritePeerRows(buf0: string, peers: seq<Peer>, escape: string -> string) returns (buf: string)
    ensures buf == buf0 + Rows(peers, escape)
  {
    buf := buf0;
    for k := 0 to |peers|
      invariant buf == buf0 + Rows(peers[..k], escape)
    {
      assert peers[..k + 1] == peers[..k] + [peers[k]];
      RowsSnoc(peers[..k], peers[k], escape);
      var p := peers[k];
      var ip := "";
      if |p.ips| > 0 {
        ip := p.ips[0];
      }
      var row := "<tr><td>" + ip + "</td><td>" + escape(p.name) + "</td></tr>\n";
      assert row == Row(p, escape);
      ConcatAssoc(buf0, Rows(peers[..k], escape), row);
      buf := buf + row;
    }
    assert peers[..|peers|] == peers;
  }

  /** The netmap branch of the notify callback: the text it sets as the
      panel's innerHTML. */
  method RenderNetMap(nm: NetMap, escape: string -> string) returns (html: string)
    ensures html == NetMapText(nm, escape)
  {
    var buf := "<p>Name: <b>" + escape(nm.name) + "</b></p>\n";
    buf := buf + "<p>Addresses: ";
    buf := WriteAddresses(buf, nm.addresses);
    buf := buf + "</p>";
    buf := buf + "<p>Machine: <b>" + nm.machineStatus + "</b>, " + nm.machineKey + "</p>\n";
    buf := buf + "<p>Nodekey: " + nm.nodeKey + "</p>\n";
    buf := buf + "<hr><table>";
    buf := WritePeerRows(buf, nm.peers, escape);
    buf := buf + "</table>";
    html := buf;
  }
}
