/**
 * `get_item_links`: the first `href` of every item link that has one, in
 * document order; links without one are skipped.
 */
module Links {
  import opened Documents

  /** The item URLs `get_item_links` yields, in the order it yields them. */
  function ItemHrefs(links: seq<Link>): seq<string> {
    if links == [] then []
    else (if links[0].href != [] then [links[0].href[0]] else []) + ItemHrefs(links[1..])
  }

  /** The number of links that have an `href`. */
  function CountWithHref(links: seq<Link>): nat {
    if links == [] then 0 else (if links[0].href != [] then 1 else 0) + CountWithHref(links[1..])
  }

  /** The generator loop of `get_item_links`. */
  method GetItemLinks(links: seq<Link>) returns (hrefs: seq<string>)
    ensures hrefs == ItemHrefs(links)
  {
    hrefs := [];
    var i := 0;
    while i < |links|
      invariant 0 <= i <= |links|
      invariant hrefs + ItemHrefs(links[i..]) == ItemHrefs(links)
    {
      assert links[i..][1..] == links[i + 1..];
      assert ItemHrefs(links[i..]) ==
             (if links[i].href != [] then [links[i].href[0]] else []) + ItemHrefs(links[i + 1..]);
      if links[i].href != [] {
        hrefs := hrefs + [links[i].href[0]];
      }
      i := i + 1;
    }
  }

  /** The links of two runs of the document, one after the other. */
  lemma {:induction false} ItemHrefsAppend(a: seq<Link>, b: seq<Link>)
    ensures ItemHrefs(a + b) == ItemHrefs(a) + ItemHrefs(b)
  {
    if a == [] {
      assert a + b == b;
    } else {
      var head := if a[0].href != [] then [a[0].href[0]] else [];
      assert (a + b)[0] == a[0];
      assert (a + b)[1..] == a[1..] + b;
      ItemHrefsAppend(a[1..], b);
      calc {
        ItemHrefs(a + b);
        head + ItemHrefs(a[1..] + b);
        head + (ItemHrefs(a[1..]) + ItemHrefs(b));
        (head + ItemHrefs(a[1..])) + ItemHrefs(b);
      }
    }
  }

  lemma {:induction false} CountWithHrefAppend(a: seq<Link>, b: seq<Link>)
    ensures CountWithHref(a + b) == CountWithHref(a) + CountWithHref(b)
  {
    if a == [] {
      assert a + b == b;
    } else {
      assert (a + b)[0] == a[0];
      assert (a + b)[1..] == a[1..] + b;
      CountWithHrefAppend(a[1..], b);
    }
  }

  /**
   * Exactly the links with an `href` contribute, one URL each, in document
   * order: the link at position `i` gives the URL at the position counting the
   * links with an `href` before it.
   */
  lemma {:induction false} ItemHrefsPositions(links: seq<Link>, i: nat)
    requires i < |links| && links[i].href != []
    ensures |ItemHrefs(links)| == CountWithHref(links)
    ensures CountWithHref(links[..i]) < |ItemHrefs(links)|
    ensures ItemHrefs(links)[CountWithHref(links[..i])] == links[i].href[0]
  {
    assert links == links[..i] + [links[i]] + links[i + 1..];
    ItemHrefsAppend(links[..i] + [links[i]], links[i + 1..]);
    ItemHrefsAppend(links[..i], [links[i]]);
    CountWithHrefAppend(links[..i] + [links[i]], links[i + 1..]);
    CountWithHrefAppend(links[..i], [links[i]]);
    assert ItemHrefs([links[i]]) == [links[i].href[0]] by {
      assert [links[i]][1..] == [];
    }
    assert CountWithHref([links[i]]) == 1 by {
      assert [links[i]][1..] == [];
    }
    ItemHrefsLength(links);
    ItemHrefsLength(links[..i]);
    var before := ItemHrefs(links[..i]);
    assert ItemHrefs(links) == before + [links[i].href[0]] + ItemHrefs(links[i + 1..]);
    assert ItemHrefs(links)[|before|] == links[i].href[0];
  }

  lemma {:induction false} ItemHrefsLength(links: seq<Link>)
    ensures |ItemHrefs(links)| == CountWithHref(links)
  {
    if links != [] {
      ItemHrefsLength(links[1..]);
    }
  }

  /** Every URL yielded is the first `href` of some link, and no link yields more than one. */
  lemma {:induction false} ItemHrefsFromLinks(links: seq<Link>)
    ensures |ItemHrefs(links)| <= |links|
    ensures forall u :: u in ItemHrefs(links) ==>
              exists i :: 0 <= i < |links| && links[i].href != [] && links[i].href[0] == u
  {
    if links != [] {
      ItemHrefsFromLinks(links[1..]);
      forall u | u in ItemHrefs(links)
        ensures exists i :: 0 <= i < |links| && links[i].href != [] && links[i].href[0] == u
      {
        if links[0].href != [] && u == links[0].href[0] {
          assert links[0].href[0] == u;
        } else {
          assert u in ItemHrefs(links[1..]);
          var j :| 0 <= j < |links[1..]| && links[1..][j].href != [] && links[1..][j].href[0] == u;
          assert links[j + 1] == links[1..][j];
        }
      }
    }
  }

  /** A page with no item links, or none with an `href`, yields nothing. */
  lemma {:induction false} NoHrefNoItems(links: seq<Link>)
    requires forall i :: 0 <= i < |links| ==> links[i].href == []
    ensures ItemHrefs(links) == []
  {
    if links != [] {
      NoHrefNoItems(links[1..]);
    }
  }
}
