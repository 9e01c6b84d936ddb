/** Several Huffman decoders that share no memory. */
module DecoderSets {
  import opened Canonical
  import opened Huffman
  import opened HuffmanTables

  /** No two of the decoders share a table, and none of them has one of the other arrays. */
  ghost predicate Disjoint(all: set<HuffmanDecoder>, others: set<array<nat>>)
    reads all
  {
    && (forall a, b :: a in all && b in all && a != b ==> a.Tables() !! b.Tables())
    && forall a :: a in all ==> others !! a.Tables()
  }

  lemma OthersApart(all: set<HuffmanDecoder>, others: set<array<nat>>)
    requires Disjoint(all, others)
    ensures forall a, o :: a in all && o in others ==> o !in a.Tables()
  {}

  /** Make one decoder's tables; the others, and other arrays, are as they were. */
  method InitOne(h: HuffmanDecoder, lengths: Lengths, ghost all: set<HuffmanDecoder>, ghost others: set<array<nat>>)
    requires h in all && h.Shape() && |lengths| <= MAX_SYMBOLS && Disjoint(all, others)
    modifies h, h.limit, h.pos, h.quicklen, h.quicksym
    ensures h.Shape() && h.Valid() && h.lengths == lengths && Disjoint(all, others)
    ensures forall t :: t in others ==> t[..] == old(t[..])
    ensures forall o :: o in all - {h} && old(o.Shape()) ==> o.Shape() && o.lengths == old(o.lengths)
    ensures forall o :: o in all - {h} && old(o.Valid()) ==> o.Valid()
  {
    h.Init(lengths);
  }

  lemma FewerApart(all: set<HuffmanDecoder>, others: set<array<nat>>, some: set<array<nat>>)
    requires Disjoint(all, others) && some <= others
    ensures Disjoint(all, some)
  {}

  method FourDecoders(ghost others: set<array<nat>>)
    returns (a: HuffmanDecoder, b: HuffmanDecoder, c: HuffmanDecoder, d: HuffmanDecoder)
    ensures a.Shape() && b.Shape() && c.Shape() && d.Shape() && fresh({a, b, c, d})
    ensures a != b && a != c && a != d && b != c && b != d && c != d && Disjoint({a, b, c, d}, others)
    ensures fresh({a.limit, a.pos, a.quicklen, a.quicksym, b.limit, b.pos, b.quicklen, b.quicksym})
    ensures fresh({c.limit, c.pos, c.quicklen, c.quicksym, d.limit, d.pos, d.quicklen, d.quicksym})
  {
    hide HuffmanDecoder.Shape;
    hide HuffmanDecoder.Tables;
    a := new HuffmanDecoder();
    b := new HuffmanDecoder();
    c := new HuffmanDecoder();
    d := new HuffmanDecoder();
  }

  method ThreeDecoders(ghost others: set<array<nat>>) returns (a: HuffmanDecoder, b: HuffmanDecoder, c: HuffmanDecoder)
    ensures a.Shape() && b.Shape() && c.Shape() && fresh({a, b, c})
    ensures a != b && a != c && b != c && Disjoint({a, b, c}, others)
  {
    hide HuffmanDecoder.Shape;
    hide HuffmanDecoder.Tables;
    a := new HuffmanDecoder();
    b := new HuffmanDecoder();
    c := new HuffmanDecoder();
  }

  /** Make the tables of four decoders; other arrays are as they were. */
  method InitFour(a: HuffmanDecoder, b: HuffmanDecoder, c: HuffmanDecoder, d: HuffmanDecoder,
                  la: Lengths, lb: Lengths, lc: Lengths, ld: Lengths, ghost others: set<array<nat>>)
    requires a.Shape() && b.Shape() && c.Shape() && d.Shape() && Disjoint({a, b, c, d}, others)
    requires a != b && a != c && a != d && b != c && b != d && c != d
    requires |la| <= MAX_SYMBOLS && |lb| <= MAX_SYMBOLS && |lc| <= MAX_SYMBOLS && |ld| <= MAX_SYMBOLS
    modifies a, a.limit, a.pos, a.quicklen, a.quicksym
    modifies b, b.limit, b.pos, b.quicklen, b.quicksym
    modifies c, c.limit, c.pos, c.quicklen, c.quicksym
    modifies d, d.limit, d.pos, d.quicklen, d.quicksym
    ensures a.Shape() && b.Shape() && c.Shape() && d.Shape() && Disjoint({a, b, c, d}, others)
    ensures a.Valid() && b.Valid() && c.Valid() && d.Valid()
    ensures a.lengths == la && b.lengths == lb && c.lengths == lc && d.lengths == ld
    ensures forall t :: t in others ==> t[..] == old(t[..])
  {
    hide HuffmanDecoder.Valid;
    hide HuffmanDecoder.Shape;
    hide HuffmanDecoder.Tables;
    hide Disjoint;
    ghost var all := {a, b, c, d};
    InitOne(a, la, all, others);
    InitOne(b, lb, all, others);
    InitOne(c, lc, all, others);
    InitOne(d, ld, all, others);
  }

  /** Four decoders without any codes. */
  method EmptyDecoders(ghost others: set<array<nat>>)
    returns (a: HuffmanDecoder, b: HuffmanDecoder, c: HuffmanDecoder, d: HuffmanDecoder)
    ensures a.Shape() && b.Shape() && c.Shape() && d.Shape() && a.Valid() && b.Valid() && c.Valid() && d.Valid()
      && fresh({a, b, c, d})
    ensures a != b && a != c && a != d && b != c && b != d && c != d && Disjoint({a, b, c, d}, others)
    ensures a.lengths == b.lengths == c.lengths == d.lengths == []
  {
    hide HuffmanDecoder.Valid;
    hide HuffmanDecoder.Shape;
    hide HuffmanDecoder.Tables;
    hide Disjoint;
    a, b, c, d := FourDecoders(others);
    InitFour(a, b, c, d, [], [], [], [], others);
  }
}
