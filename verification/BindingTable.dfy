/** The Agent's table of model bindings, and the three statements that write it. */
module BindingTable {
  import opened Records

  datatype BindingRow = BindingRow(text: string, verified: bool, digest: Option<string>)

  /** INSERT ... ON CONFLICT DO UPDATE: a saved binding is never verified. */
  function Saved(rows: map<Id, BindingRow>, id: Id, text: string): map<Id, BindingRow> {
    rows[id := BindingRow(text, false, None)]
  }

  function Cleared(rows: map<Id, BindingRow>, id: Id): map<Id, BindingRow> {
    if id in rows then rows[id := rows[id].(verified := false, digest := None)] else rows
  }

  /** UPDATE ... WHERE binding_id = id AND binding_json = text. */
  function Marked(rows: map<Id, BindingRow>, id: Id, text: string, digest: string): map<Id, BindingRow> {
    if id in rows && rows[id].text == text
    then rows[id := rows[id].(verified := true, digest := Some(digest))]
    else rows
  }

  /** No other binding is touched. */
  predicate OnlyBinding(before: map<Id, BindingRow>, after: map<Id, BindingRow>, id: Id) {
    && (forall other <- before | other != id :: other in after && after[other] == before[other])
    && forall other <- after | other != id :: other in before
  }

  /** What each of the three statements means for the binding it names. */
  lemma StatementsOnBinding(rows: map<Id, BindingRow>, id: Id, text: string, digest: string)
    ensures OnlyBinding(rows, Saved(rows, id, text), id) && id in Saved(rows, id, text)
    ensures var row := Saved(rows, id, text)[id]; row.text == text && !row.verified && row.digest == None
    ensures OnlyBinding(rows, Cleared(rows, id), id) && (id in Cleared(rows, id) <==> id in rows)
    ensures id in rows ==>
              var row := Cleared(rows, id)[id]; row.text == rows[id].text && !row.verified && row.digest == None
    ensures OnlyBinding(rows, Marked(rows, id, text, digest), id) && (id in Marked(rows, id, text, digest) <==> id in rows)
    ensures id in rows && rows[id].text == text ==>
              var row := Marked(rows, id, text, digest)[id];
              row.text == text && row.verified && row.digest == Some(digest)
    ensures id in rows && rows[id].text != text ==> Marked(rows, id, text, digest)[id] == rows[id]
  {
  }
}
