/** Signing and verifying proof bundles over their canonical text. */
module ProofSigning {
  import opened Prelude
  import opened CanonicalJson
  import opened JsonText

  function Canonicalize(v: Json): Text {
    Print(SortKeys(v))
  }

  /** The canonical text reads back as the sorted value. */
  lemma CanonicalTextReadsBack(v: Json)
    requires Valid(v)
    ensures Parse(Canonicalize(v)) == Some(SortKeys(v))
  {
    SortKeysCorrect(v);
    PrintReadsBack(SortKeys(v));
  }

  /** Same text exactly when equal up to key order, leaving out members named `__proto__`. */
  lemma SameTextIffSameMeaning(a: Json, b: Json)
    requires Valid(a) && Valid(b)
    ensures Canonicalize(a) == Canonicalize(b) <==> MeaningOf(a, false) == MeaningOf(b, false)
  {
    SortKeysCorrect(a);
    SortKeysCorrect(b);
    CanonicalTextReadsBack(a);
    CanonicalTextReadsBack(b);
    if MeaningOf(a, false) == MeaningOf(b, false) {
      CanonicalUnique(SortKeys(a), SortKeys(b));
    }
  }

  /** Without members named `__proto__`, nothing but the key order is forgotten. */
  lemma SameTextIffEqualUpToKeyOrder(a: Json, b: Json)
    requires Valid(a) && Valid(b) && NoProto(a) && NoProto(b)
    ensures Canonicalize(a) == Canonicalize(b) <==> MeaningOf(a, true) == MeaningOf(b, true)
  {
    SameTextIffSameMeaning(a, b);
    NothingDropped(a);
    NothingDropped(b);
  }

  /** Storing the canonical text, reading it again and canonicalizing once more changes nothing. */
  lemma CanonicalizeAgain(v: Json)
    requires Valid(v)
    ensures var read := Parse(Canonicalize(v));
            read.Some? && Valid(read.value) && Canonicalize(read.value) == Canonicalize(v)
  {
    CanonicalTextReadsBack(v);
    SortKeysCorrect(v);
    SameTextIffSameMeaning(SortKeys(v), v);
  }

  /** Two bundles that differ in a `__proto__` member share one text. */
  lemma ProtoIsNotSigned()
    ensures var a, b := Obj([Member(PROTO, Bool(true))]), Obj([]);
            && Valid(a) && Valid(b) && MeaningOf(a, true) != MeaningOf(b, true)
            && Canonicalize(a) == Canonicalize(b)
  {
    var ms := [Member(PROTO, Bool(true))];
    var a, b := Obj(ms), Obj([]);
    assert ms[1..] == [];
    assert MeaningOfMembers(ms, false) == map[] == MeaningOfMembers([], false);
    assert PROTO in MeaningOfMembers(ms, true);
    assert MeaningOf(a, true) == Record(MeaningOfMembers(ms, true));
    SameTextIffSameMeaning(a, b);
  }

  // ----- Signatures, ideal: one checks only under its own key and for its own text ---------------------

  datatype Signature = Signature(key: nat, text: Text)

  predicate Checks(key: nat, text: Text, signature: Signature) {
    signature == Signature(key, text)
  }

  function SignProof(bundle: Json, key: nat): Signature {
    Signature(key, Canonicalize(bundle))
  }

  /** The current key first, then each further key that is still trusted. */
  method VerifyProof(current: nat, older: seq<nat>, bundle: Json, signature: Signature) returns (ok: bool)
    ensures ok <==> signature.key in [current] + older && signature.text == Canonicalize(bundle)
  {
    var keys := [current] + older;
    var data := Canonicalize(bundle);
    for i := 0 to |keys|
      invariant forall j :: 0 <= j < i ==> !Checks(keys[j], data, signature)
    {
      if Checks(keys[i], data, signature) {
        return true;
      }
    }
    return false;
  }

  /** A bundle signed with a trusted key vouches for exactly the bundles with its meaning. */
  lemma SignatureCoversMeaning(signed: Json, shown: Json, key: nat, current: nat, older: seq<nat>)
    requires Valid(signed) && Valid(shown) && key in [current] + older
    ensures var signature := SignProof(signed, key);
            (signature.key in [current] + older && signature.text == Canonicalize(shown))
            <==> MeaningOf(signed, false) == MeaningOf(shown, false)
  {
    SameTextIffSameMeaning(signed, shown);
  }
}
