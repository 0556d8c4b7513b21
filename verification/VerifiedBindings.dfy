/** The verification protocol with the Agent's own encoding of bindings and digests. */
module VerifiedBindings {
  import opened Records
  import opened AgentStore
  import opened Verification

  /** The Agent's own encoding: sorted JSON text, and a hash of its compact form. */
  function JsonCodec(hash: string -> string): Codec {
    Codec(text => StoredText(text), text => if StoredText(text) then StoredDigest(hash, text) else "")
  }

  lemma JsonSeparates(hash: string -> string)
    requires Injective(hash)
    ensures Separates(JsonCodec(hash))
  {
    var codec := JsonCodec(hash);
    forall x, y | codec.stored(x) && codec.stored(y) && codec.digestOf(x) == codec.digestOf(y)
      ensures x == y
    {
      DigestDecides(hash, x, y);
    }
  }

  /** Verified means tested: whatever saves, other verifications and lost races come between, a
      binding counts as verified exactly when its mark is set, and then a test inference has
      succeeded on the very binding that is stored. */
  lemma VerifiedMeansTested(hash: string -> string, s: seq<Agent>, acts: seq<Action>, i: nat, id: Id)
    requires Injective(hash)
    requires Trace(JsonCodec(hash), s, acts) && ConsistentReads(JsonCodec(hash), s, acts) && i < |s|
    ensures RowsValid(s[i].rows)
    ensures IsVerified(hash, s[i].rows, id) <==> id in s[i].rows && s[i].rows[id].verified
    ensures IsVerified(hash, s[i].rows, id) ==>
              exists t <- s[i].tested :: t.0 == id && StoredText(t.1) && BindingOf(t.1) == BindingOf(s[i].rows[id].text)
  {
    JsonSeparates(hash);
    TraceInv(JsonCodec(hash), s, acts, i);
    forall other <- s[i].rows
      ensures StoredText(s[i].rows[other].text)
    {
      assert RowInv(JsonCodec(hash), s[i].rows[other], other, s[i].tested);
    }
    if id in s[i].rows && s[i].rows[id].verified {
      MarkedMeansTested(JsonCodec(hash), s, acts, i, id);
      assert (id, s[i].rows[id].text) in s[i].tested;
    }
  }
}
