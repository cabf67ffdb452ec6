/** Separation of Markdown blocks from their byte-identical Chinese counterparts. */
module MarkdownDerivatives {
  import opened Ordering
  import opened Text
  import opened Wrappers

  /** The path with one `.zh` taken off before its extension, or none when it has no such suffix. */
  function UnsuffixedSibling(doc: string): (r: Option<string>)
    ensures r.Some? ==> |r.value| < |doc|
  {
    if EndsWith(doc, ".zh.md") then Some(doc[..|doc| - 6] + ".md") else None
  }

  /** Taking one `.zh` off before the extension of `doc` gives `sibling`. */
  ghost predicate Unsuffixes(doc: string, sibling: string) {
    exists stem :: doc == stem + ".zh.md" && sibling == stem + ".md"
  }

  lemma SiblingIs(doc: string)
    ensures forall sibling :: UnsuffixedSibling(doc) == Some(sibling) <==> Unsuffixes(doc, sibling)
  {
    if EndsWith(doc, ".zh.md") { assert doc == doc[..|doc| - 6] + ".zh.md"; }
    forall sibling | Unsuffixes(doc, sibling) ensures UnsuffixedSibling(doc) == Some(sibling) {
      var stem :| doc == stem + ".zh.md" && sibling == stem + ".md";
      assert doc[|doc| - 6..] == ".zh.md" && doc[..|doc| - 6] == stem;
    }
  }

  /** The blocks of one document, in order. */
  function Group<T(!new)>(blocks: seq<T>, docOf: T -> string, doc: string): seq<T> {
    Filter(blocks, (b: T) => docOf(b) == doc)
  }

  function Fingerprints<T>(blocks: seq<T>, fingerprintOf: T -> string): seq<string> {
    seq(|blocks|, i requires 0 <= i < |blocks| => fingerprintOf(blocks[i]))
  }

  /** The other document has blocks, and the document has the same. */
  ghost predicate Repeats<T(!new)>(blocks: seq<T>, docOf: T -> string, fingerprintOf: T -> string, doc: string,
                                   other: string)
  {
    && Group(blocks, docOf, other) != []
    && Fingerprints(Group(blocks, docOf, doc), fingerprintOf) == Fingerprints(Group(blocks, docOf, other),
                                                                              fingerprintOf)
  }

  /** A document whose blocks repeat those of its unsuffixed sibling, which has some. */
  ghost predicate IsDerivative<T(!new)>(blocks: seq<T>, docOf: T -> string, fingerprintOf: T -> string, doc: string) {
    exists sibling :: Unsuffixes(doc, sibling) && Repeats(blocks, docOf, fingerprintOf, doc, sibling)
  }

  lemma GroupPush<T(!new)>(blocks: seq<T>, docOf: T -> string, b: T, doc: string)
    ensures Group(blocks + [b], docOf, doc) == Group(blocks, docOf, doc) + if docOf(b) == doc then [b] else []
  {
    assert (blocks + [b])[..|blocks|] == blocks;
  }

  /** Blocks by document, and the documents in order of their first block. */
  method GroupByDoc<T(!new)>(blocks: seq<T>, docOf: T -> string) returns (byDoc: map<string, seq<T>>, docs: seq<string>)
    ensures forall d :: d in docs <==> d in byDoc
    ensures forall d :: d in byDoc <==> Group(blocks, docOf, d) != []
    ensures forall d :: d in byDoc ==> byDoc[d] == Group(blocks, docOf, d)
  {
    byDoc, docs := map[], [];
    for i := 0 to |blocks|
      invariant forall d :: d in docs <==> d in byDoc
      invariant forall d :: d in byDoc <==> Group(blocks[..i], docOf, d) != []
      invariant forall d :: d in byDoc ==> byDoc[d] == Group(blocks[..i], docOf, d)
    {
      assert blocks[..i + 1] == blocks[..i] + [blocks[i]];
      forall d: string
        ensures Group(blocks[..i + 1], docOf, d)
             == Group(blocks[..i], docOf, d) + if docOf(blocks[i]) == d then [blocks[i]] else []
      {
        GroupPush(blocks[..i], docOf, blocks[i], d);
      }
      hide Group;
      var doc := docOf(blocks[i]);
      if doc in byDoc {
        byDoc := byDoc[doc := byDoc[doc] + [blocks[i]]];
      } else {
        byDoc := byDoc[doc := [blocks[i]]];
        docs := docs + [doc];
      }
    }
    assert blocks[..|blocks|] == blocks;
  }

  /** Equal lengths and equal fingerprints position by position. */
  method SameFingerprints<T>(candidates: seq<T>, originals: seq<T>, fingerprintOf: T -> string) returns (same: bool)
    ensures same <==> Fingerprints(candidates, fingerprintOf) == Fingerprints(originals, fingerprintOf)
  {
    if |originals| != |candidates| {
      return false;
    }
    for i := 0 to |candidates|
      invariant forall k :: 0 <= k < i ==> fingerprintOf(candidates[k]) == fingerprintOf(originals[k])
    {
      if fingerprintOf(candidates[i]) != fingerprintOf(originals[i]) {
        assert Fingerprints(candidates, fingerprintOf)[i] != Fingerprints(originals, fingerprintOf)[i];
        return false;
      }
    }
    same := true;
  }

  lemma AllGrouped<T(!new)>(blocks: seq<T>, docOf: T -> string)
    ensures forall b :: b in blocks ==> Group(blocks, docOf, docOf(b)) != []
  {
    forall b | b in blocks ensures Group(blocks, docOf, docOf(b)) != [] {
      assert b in Group(blocks, docOf, docOf(b));
    }
  }

  lemma DerivativeWhen<T(!new)>(blocks: seq<T>, docOf: T -> string, fingerprintOf: T -> string, doc: string)
    ensures IsDerivative(blocks, docOf, fingerprintOf, doc) <==>
              && UnsuffixedSibling(doc).Some?
              && Repeats(blocks, docOf, fingerprintOf, doc, UnsuffixedSibling(doc).value)
  {
    hide Repeats, Unsuffixes, UnsuffixedSibling;
    SiblingIs(doc);
  }

  /** The documents that repeat their unsuffixed siblings. */
  method DerivativeDocs<T(!new)>(blocks: seq<T>, docOf: T -> string, fingerprintOf: T -> string)
    returns (found: set<string>)
    ensures forall b :: b in blocks ==> (docOf(b) in found <==> IsDerivative(blocks, docOf, fingerprintOf, docOf(b)))
  {
    hide Group, Fingerprints, UnsuffixedSibling, IsDerivative;
    var byDoc, docs := GroupByDoc(blocks, docOf);
    found := {};
    AllGrouped(blocks, docOf);
    for i := 0 to |docs|
      invariant forall d :: d in found ==> IsDerivative(blocks, docOf, fingerprintOf, d)
      invariant forall k :: 0 <= k < i && IsDerivative(blocks, docOf, fingerprintOf, docs[k]) ==> docs[k] in found
    {
      var doc := docs[i];
      assert doc in docs;
      var sibling := UnsuffixedSibling(doc);
      DerivativeWhen(blocks, docOf, fingerprintOf, doc);
      if sibling.Some? && sibling.value in byDoc {
        var same := SameFingerprints(byDoc[doc], byDoc[sibling.value], fingerprintOf);
        if same {
          found := found + {doc};
        }
      }
    }
  }

  /** Blocks outside and inside a set of documents, keeping their order. */
  method SplitByDoc<T(!new)>(blocks: seq<T>, docOf: T -> string, found: set<string>)
    returns (primary: seq<T>, derivatives: seq<T>)
    ensures primary == Filter(blocks, (b: T) => docOf(b) !in found)
    ensures derivatives == Filter(blocks, (b: T) => docOf(b) in found)
  {
    primary, derivatives := [], [];
    for i := 0 to |blocks|
      invariant primary == Filter(blocks[..i], (b: T) => docOf(b) !in found)
      invariant derivatives == Filter(blocks[..i], (b: T) => docOf(b) in found)
    {
      assert blocks[..i + 1][..i] == blocks[..i];
      if docOf(blocks[i]) in found {
        derivatives := derivatives + [blocks[i]];
      } else {
        primary := primary + [blocks[i]];
      }
    }
    assert blocks[..|blocks|] == blocks;
  }

  /** Split blocks, keeping their order, into those that still need checking and those of derivative documents. */
  method PartitionPairedMarkdownDerivatives<T(!new)>(blocks: seq<T>, docOf: T -> string, fingerprintOf: T -> string)
    returns (primary: seq<T>, derivatives: seq<T>)
    ensures primary == Filter(blocks, (b: T) => !IsDerivative(blocks, docOf, fingerprintOf, docOf(b)))
    ensures derivatives == Filter(blocks, (b: T) => IsDerivative(blocks, docOf, fingerprintOf, docOf(b)))
  {
    hide IsDerivative, Filter;
    var found := DerivativeDocs(blocks, docOf, fingerprintOf);
    primary, derivatives := SplitByDoc(blocks, docOf, found);
    FilterSame(blocks, (b: T) => docOf(b) in found, (b: T) => IsDerivative(blocks, docOf, fingerprintOf, docOf(b)));
    FilterSame(blocks, (b: T) => docOf(b) !in found, (b: T) => !IsDerivative(blocks, docOf, fingerprintOf, docOf(b)));
  }

  // ---------- What the partition promises ----------

  /** `a` is reached from `doc` by taking unsuffixed siblings, once or more. */
  ghost predicate Ancestor(doc: string, a: string)
    decreases |doc|
  {
    exists sibling :: Unsuffixes(doc, sibling) && |sibling| < |doc| && (sibling == a || Ancestor(sibling, a))
  }

  /** Every block of a derivative document has the fingerprint of the block at the same place in some ancestor document
      whose blocks are primary, however many suffixes are stacked. */
  lemma {:induction false} CoveredByPrimary<T(!new)>(blocks: seq<T>, docOf: T -> string, fingerprintOf: T -> string,
                                                     doc: string)
    returns (original: string)
    requires IsDerivative(blocks, docOf, fingerprintOf, doc)
    ensures Ancestor(doc, original) && !IsDerivative(blocks, docOf, fingerprintOf, original)
    ensures Group(blocks, docOf, original) != []
    ensures Fingerprints(Group(blocks, docOf, doc), fingerprintOf)
         == Fingerprints(Group(blocks, docOf, original), fingerprintOf)
    decreases |doc|
  {
    hide Group, Fingerprints;
    original :| Unsuffixes(doc, original) && Repeats(blocks, docOf, fingerprintOf, doc, original);
    if IsDerivative(blocks, docOf, fingerprintOf, original) {
      original := CoveredByPrimary(blocks, docOf, fingerprintOf, original);
    }
  }

  /** Splitting by a test keeps every block, once, in one of the two parts. */
  lemma {:induction false} SplitConserves<T(!new)>(blocks: seq<T>, keep: T -> bool, other: T -> bool)
    requires forall b :: other(b) <==> !keep(b)
    ensures multiset(Filter(blocks, keep)) + multiset(Filter(blocks, other)) == multiset(blocks)
  {
    if blocks != [] {
      SplitConserves(blocks[..|blocks| - 1], keep, other);
      assert blocks == blocks[..|blocks| - 1] + [blocks[|blocks| - 1]];
    }
  }
}
