/**
 Canonical JSON of page lists. A page's own encoding is one opaque piece of known byte length,
 so an array is brackets, commas and pieces; a digest is an injective function of the pieces.
 */
module Canonical {

  /** A validated page: its identifier, everything else in it, and the length of its canonical encoding. */
  datatype Page = Page(pageId: string, content: string, encodedBytes: nat)

  datatype Piece = Open | Comma | Close | Item(page: Page)

  /** SHA-256 of a byte stream, treated as injective. */
  datatype Digest = Digest(preimage: seq<Piece>)

  function PieceBytes(piece: Piece): nat {
    if piece.Item? then piece.page.encodedBytes else 1
  }

  function StreamBytes(stream: seq<Piece>): nat {
    if stream == [] then 0 else StreamBytes(stream[..|stream| - 1]) + PieceBytes(stream[|stream| - 1])
  }

  /** The items of an array with a comma between each pair. */
  function Items(pages: seq<Page>): seq<Piece> {
    if pages == [] then []
    else if |pages| == 1 then [Item(pages[0])]
    else Items(pages[..|pages| - 1]) + [Comma, Item(pages[|pages| - 1])]
  }

  function CanonicalArray(pages: seq<Page>): seq<Piece> {
    [Open] + Items(pages) + [Close]
  }

  function ArrayBytes(pages: seq<Page>): nat {
    StreamBytes(CanonicalArray(pages))
  }

  function PagesChecksum(pages: seq<Page>): Digest {
    Digest(CanonicalArray(pages))
  }

  function PageIds(pages: seq<Page>): seq<string> {
    seq(|pages|, i requires 0 <= i < |pages| => pages[i].pageId)
  }

  ghost predicate Distinct<T>(s: seq<T>) {
    forall i, j :: 0 <= i < j < |s| ==> s[i] != s[j]
  }

  function Flatten(batches: seq<seq<Page>>): seq<Page> {
    if batches == [] then [] else Flatten(batches[..|batches| - 1]) + batches[|batches| - 1]
  }

  // ---------------------------------------------------------------- lengths

  lemma {:induction false} StreamBytesConcat(a: seq<Piece>, b: seq<Piece>)
    ensures StreamBytes(a + b) == StreamBytes(a) + StreamBytes(b)
  {
    if b == [] {
      assert a + b == a;
    } else {
      var b', last := b[..|b| - 1], b[|b| - 1];
      assert (a + b)[..|a + b| - 1] == a + b';
      StreamBytesConcat(a, b');
    }
  }

  /** What one more page costs: its own encoding, and a comma unless it is the first. */
  lemma {:induction false} ArrayBytesAppend(pages: seq<Page>, page: Page)
    ensures ArrayBytes([]) == 2
    ensures ArrayBytes(pages + [page])
         == ArrayBytes(pages) + page.encodedBytes + (if pages == [] then 0 else 1)
  {
    assert CanonicalArray([]) == [Open, Close];
    assert StreamBytes([Open, Close]) == StreamBytes([Open]) + 1;
    assert (pages + [page])[..|pages|] == pages;
    var tail := if pages == [] then [Item(page)] else [Comma, Item(page)];
    assert Items(pages + [page]) == Items(pages) + tail;
    StreamBytesConcat([Open] + Items(pages), [Close]);
    StreamBytesConcat([Open] + Items(pages + [page]), [Close]);
    assert [Open] + Items(pages + [page]) == [Open] + Items(pages) + tail;
    StreamBytesConcat([Open] + Items(pages), tail);
    assert StreamBytes([Comma, Item(page)]) == StreamBytes([Comma]) + page.encodedBytes;
    assert StreamBytes([Item(page)]) == page.encodedBytes;
  }

  lemma {:induction false} ArrayBytesConcat(a: seq<Page>, b: seq<Page>)
    requires a != [] && b != []
    ensures ArrayBytes(a + b) == ArrayBytes(a) + ArrayBytes(b) - 1
  {
    var b', last := b[..|b| - 1], b[|b| - 1];
    assert b == b' + [last];
    ArrayBytesAppend(b', last);
    if b' == [] {
      assert a + b == a + [last];
      ArrayBytesAppend(a, last);
    } else {
      assert a + b == (a + b') + [last];
      ArrayBytesAppend(a + b', last);
      ArrayBytesConcat(a, b');
    }
  }

  /** Dropping pages never lengthens an array. */
  lemma {:induction false} ArrayBytesMonotone(pages: seq<Page>, lo: nat, hi: nat)
    requires lo <= hi <= |pages|
    ensures ArrayBytes(pages[lo..hi]) <= ArrayBytes(pages)
  {
    var a, b, c := pages[..lo], pages[lo..hi], pages[hi..];
    assert pages == a + b + c;
    ArrayBytesAppend([], Page("", "", 0));
    ArrayBytesAtLeastTwo(a); ArrayBytesAtLeastTwo(b); ArrayBytesAtLeastTwo(c);
    if a != [] && b != [] { ArrayBytesConcat(a, b); }
    if a + b != [] && c != [] { ArrayBytesConcat(a + b, c); }
    if a == [] { assert a + b == b; }
    if c == [] { assert a + b + c == a + b; }
    if a + b == [] { assert a + b + c == c; }
  }

  lemma {:induction false} ArrayBytesAtLeastTwo(pages: seq<Page>)
    ensures ArrayBytes(pages) >= 2
  {
    ArrayBytesAppend([], Page("", "", 0));
    if pages != [] {
      ArrayBytesAtLeastTwo(pages[..|pages| - 1]);
      ArrayBytesAppend(pages[..|pages| - 1], pages[|pages| - 1]);
      assert pages[..|pages| - 1] + [pages[|pages| - 1]] == pages;
    }
  }

  // ---------------------------------------------------------------- injectivity

  function PagesIn(stream: seq<Piece>): seq<Page> {
    if stream == [] then []
    else PagesIn(stream[..|stream| - 1])
         + (if stream[|stream| - 1].Item? then [stream[|stream| - 1].page] else [])
  }

  lemma {:induction false} PagesInItems(pages: seq<Page>)
    ensures PagesIn([Open] + Items(pages)) == pages
  {
    if pages == [] {
      assert [Open] + Items(pages) == [Open];
    } else {
      var init, last := pages[..|pages| - 1], pages[|pages| - 1];
      PagesInItems(init);
      var s := [Open] + Items(pages);
      assert s[|s| - 1] == Item(last);
      if init == [] {
        assert s[..|s| - 1] == [Open];
      } else {
        assert s[..|s| - 1] == [Open] + Items(init) + [Comma];
        assert ([Open] + Items(init) + [Comma])[..|s| - 2] == [Open] + Items(init);
      }
      assert PagesIn(s[..|s| - 1]) == init;
    }
  }

  /** Equal checksums mean equal page lists, in order. */
  lemma {:induction false} ChecksumInjective(a: seq<Page>, b: seq<Page>)
    requires PagesChecksum(a) == PagesChecksum(b)
    ensures a == b
  {
    PagesInItems(a);
    PagesInItems(b);
    assert CanonicalArray(a)[..|CanonicalArray(a)| - 1] == [Open] + Items(a);
    assert CanonicalArray(b)[..|CanonicalArray(b)| - 1] == [Open] + Items(b);
  }

  lemma {:induction false} FlattenAppend(batches: seq<seq<Page>>, more: seq<seq<Page>>)
    ensures Flatten(batches + more) == Flatten(batches) + Flatten(more)
  {
    if more == [] {
      assert batches + more == batches;
    } else {
      assert (batches + more)[..|batches + more| - 1] == batches + more[..|more| - 1];
      FlattenAppend(batches, more[..|more| - 1]);
    }
  }

  // ---------------------------------------------------------------- incremental checksum

  /** Hashes the canonical array of an export while it streams past. */
  class CanonicalDocumentChecksum {
    var fed: seq<Piece>
    var first: bool
    ghost var added: seq<Page>

    ghost predicate Valid()
      reads this
    {
      fed == [Open] + Items(added) && first == (added == [])
    }

    constructor ()
      ensures Valid() && added == []
    {
      fed := [Open];
      first := true;
      added := [];
    }

    method Add(pages: seq<Page>)
      requires Valid()
      modifies this
      ensures Valid() && added == old(added) + pages
    {
      for i := 0 to |pages|
        invariant Valid() && added == old(added) + pages[..i]
      {
        if !first {
          fed := fed + [Comma];
        }
        fed := fed + [Item(pages[i])];
        first := false;
        assert (added + [pages[i]])[..|added|] == added;
        added := added + [pages[i]];
        assert pages[..i + 1] == pages[..i] + [pages[i]];
      }
      assert pages[..|pages|] == pages;
    }

    /** Whatever chunks the pages came in, the digest is the one the worker recomputes over the whole list. */
    method HexDigest() returns (digest: Digest)
      requires Valid()
      ensures digest == PagesChecksum(added)
    {
      digest := Digest(fed + [Close]);
    }
  }
}
