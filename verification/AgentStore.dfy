/** Model bindings on the desktop Agent: what the store keeps and answers. Bindings are JSON
    values, kept as text; `Verification` shows what "verified" means when calls interleave. */
module AgentStore {
  import opened Records
  import opened BindingTable
  import opened JsonText
  import opened CanonicalJson

  const STORED_GAP: string := " "

  /** A stored text is what `save_binding` writes for some binding. */
  predicate StoredText(text: string) {
    && Loads(text).Value?
    && Canonical(Loads(text).v)
    && Dumps(Loads(text).v, STORED_GAP) == text
  }

  predicate Canonical(binding: Json) {
    Valid(binding) && Normal(binding) == binding
  }

  function BindingOf(text: string): Json
    requires StoredText(text)
  {
    Loads(text).v
  }

  lemma SavedTextIsStored(binding: Json)
    requires Valid(binding)
    ensures StoredText(Dumps(binding, STORED_GAP))
    ensures BindingOf(Dumps(binding, STORED_GAP)) == Normal(binding)
  {
    LoadsDumps(binding, STORED_GAP);
    NormalIsValid(binding);
  }

  /** Stored texts have a space after every comma and colon. */
  lemma StoredSample()
    ensures Dumps(Obj([Member("b", Bool(true)), Member("a", Str("x"))]), STORED_GAP)
         == "{" + ("\"a\"" + ":" + " " + "\"x\"" + "," + " " + ("\"b\"" + ":" + " " + "true")) + "}"
  {
    ObjectSample(" ");
  }

  /** The digest the store computes from a stored text. */
  function StoredDigest(hash: string -> string, text: string): string
    requires StoredText(text)
  {
    Digest(hash, BindingOf(text))
  }

  ghost predicate Injective(hash: string -> string) {
    forall x, y :: hash(x) == hash(y) ==> x == y
  }

  /** Equal digests mean equal stored texts, and so the same binding. */
  lemma DigestDecides(hash: string -> string, a: string, b: string)
    requires Injective(hash) && StoredText(a) && StoredText(b)
    requires StoredDigest(hash, a) == StoredDigest(hash, b)
    ensures a == b
  {
    var x, y := BindingOf(a), BindingOf(b);
    TextIdentifiesValue(x, y, "");
    SameIffNormalEqual(x, y);
  }

  // ---------- what the store answers ----------

  predicate RowsValid(rows: map<Id, BindingRow>) {
    forall id <- rows :: StoredText(rows[id].text)
  }

  predicate IsVerified(hash: string -> string, rows: map<Id, BindingRow>, id: Id)
    requires RowsValid(rows)
  {
    && id in rows && rows[id].verified
    && rows[id].digest == Some(StoredDigest(hash, rows[id].text))
  }

  predicate EnabledBinding(binding: Json) {
    binding.Obj? && Member("enabled", Bool(true)) in binding.members
  }

  /** The stored `enabled` is `true`, and not merely present. */
  lemma EnabledMeansTrue(binding: Json)
    requires Valid(binding)
    ensures EnabledBinding(binding) <==>
            binding.Obj? && exists i | 0 <= i < |binding.members| ::
              binding.members[i].key == "enabled" && binding.members[i].value.Bool? && binding.members[i].value.b
    ensures EnabledBinding(binding) ==>
              forall m <- binding.members | m.key == "enabled" :: m.value.Bool? && m.value.b
  {
    if binding.Obj? && exists i | 0 <= i < |binding.members| ::
        binding.members[i].key == "enabled" && binding.members[i].value.Bool? && binding.members[i].value.b {
      var i :| 0 <= i < |binding.members|
        && binding.members[i].key == "enabled" && binding.members[i].value.Bool? && binding.members[i].value.b;
      assert binding.members[i] == Member("enabled", Bool(true));
    }
  }

  class Store {
    const hash: string -> string
    var rows: map<Id, BindingRow>
    var accepting: bool

    ghost predicate Valid()
      reads this
    {
      RowsValid(rows)
    }

    constructor (hash: string -> string)
      ensures Valid() && this.hash == hash && rows == map[] && !accepting
    {
      this.hash := hash;
      rows := map[];
      accepting := false;
    }

    method SaveBinding(id: Id, binding: Json)
      requires Valid() && CanonicalJson.Valid(binding)
      modifies this`rows
      ensures Valid()
      ensures rows == Saved(old(rows), id, Dumps(binding, STORED_GAP))
      ensures id in rows && BindingOf(rows[id].text) == Normal(binding)
      ensures OnlyBinding(old(rows), rows, id) && !IsVerified(hash, rows, id)
      ensures !rows[id].verified && rows[id].digest == None
    {
      SavedTextIsStored(binding);
      rows := rows[id := BindingRow(Dumps(binding, STORED_GAP), false, None)];
    }

    /** `mark_verified(id, False)`. */
    method Unmark(id: Id) returns (changed: bool)
      requires Valid()
      modifies this`rows
      ensures Valid()
      ensures changed == (id in old(rows))
      ensures rows == Cleared(old(rows), id)
      ensures OnlyBinding(old(rows), rows, id) && (id in rows <==> id in old(rows)) && !IsVerified(hash, rows, id)
      ensures id in rows ==> rows[id].text == old(rows)[id].text && !rows[id].verified && rows[id].digest == None
    {
      if id !in rows {
        return false;
      }
      rows := rows[id := rows[id].(verified := false, digest := None)];
      return true;
    }

    /** `mark_verified(id)` with nothing between its SELECT and its UPDATE. */
    method MarkVerified(id: Id, expected: Option<string>) returns (changed: bool)
      requires Valid()
      modifies this`rows
      ensures Valid()
      ensures changed <==>
              && id in old(rows)
              && (expected.Some? ==> expected.value == StoredDigest(hash, old(rows)[id].text))
      ensures changed ==> IsVerified(hash, rows, id)
      ensures !changed ==> rows == old(rows)
      ensures changed ==> OnlyBinding(old(rows), rows, id) && rows[id].text == old(rows)[id].text
      ensures changed ==>
                rows == Marked(old(rows), id, old(rows)[id].text, StoredDigest(hash, old(rows)[id].text))
    {
      if id !in rows {
        return false;
      }
      var text := rows[id].text;
      var digest := StoredDigest(hash, text);
      if expected.Some? && expected.value != digest {
        return false;
      }
      if rows[id].text == text {
        rows := rows[id := rows[id].(verified := true, digest := Some(digest))];
        return true;
      }
      return false;
    }

    /** The scan behind "accepting": some binding is enabled and verified as it stands. */
    method HasVerifiedEnabledBinding() returns (found: bool)
      requires Valid()
      ensures found <==> exists id <- rows :: IsVerified(hash, rows, id) && EnabledBinding(BindingOf(rows[id].text))
      ensures found ==>
                exists id <- rows :: rows[id].verified
                  && rows[id].digest == Some(hash(Dumps(BindingOf(rows[id].text), "")))
                  && EnabledBinding(BindingOf(rows[id].text))
    {
      var todo := rows.Keys;
      while todo != {}
        invariant todo <= rows.Keys
        invariant forall id <- rows.Keys - todo ::
            !(IsVerified(hash, rows, id) && EnabledBinding(BindingOf(rows[id].text)))
      {
        var id :| id in todo;
        todo := todo - {id};
        var row := rows[id];
        if !row.verified || !EnabledBinding(Loads(row.text).v) || row.digest.None? {
          continue;
        }
        if row.digest.value == StoredDigest(hash, row.text) {
          return true;
        }
      }
      return false;
    }
  }
}
