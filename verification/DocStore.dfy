/**
 * The document store shared by the web app and the keeper: one table of JSON documents keyed by
 * (collection, id), with replace, merge and insert-or-ignore writes.
 */
module DocStore {
  import opened Wrappers

  /** The property names that the modelled documents use. */
  datatype Field =
    | Id | DisplayName | Bio | Points | ReferredBy | ReferralCount | TermsAcceptedAt | CreatedAt
    | Enabled | Deleted | Delegate | Vault | Owner | Strategy | RunCount | LastRunAt | State
    | LastGridPrice | BotId | Time | Signature | Holder | Exp
    | Kind | InputMint | OutputMint | InputAmount | OutputAmount | AssetA | AssetB | TargetABps
    | MaxTradeAmount | BaseMint | QuoteMint | StepBps | TradeAmount | MaxSlippageBps

  datatype Json = Null | Bool(b: bool) | Num(n: int) | Str(s: string) | Obj(fields: map<Field, Json>)

  type Doc = map<Field, Json>

  type Rows = map<(string, string), Doc>

  function Lookup(rows: Rows, collection: string, id: string): Option<Doc> {
    if (collection, id) in rows then Some(rows[(collection, id)]) else None
  }

  /** The patch over the current document, or over a bare one when there is none, under the given id. */
  function Merged(cur: Option<Doc>, id: string, patch: Doc): Doc {
    (cur.GetOr(map[Id := Str(id)]) + patch)[Id := Str(id)]
  }

  function Inserted(rows: Rows, collection: string, id: string, doc: Doc): Rows {
    if (collection, id) in rows then rows else rows[(collection, id) := doc]
  }

  /** The rows outside a collection. */
  function Elsewhere(rows: Rows, collection: string): Rows {
    map k | k in rows && k.0 != collection :: rows[k]
  }

  /** One collection as a table by id. */
  function Collection(rows: Rows, name: string): map<string, Doc> {
    map k | k in rows && k.0 == name :: k.1 := rows[k]
  }

  class Store {
    var rows: Rows

    constructor ()
      ensures rows == map[]
    {
      rows := map[];
    }

    method Get(collection: string, id: string) returns (doc: Option<Doc>)
      ensures doc == Lookup(rows, collection, id)
    {
      if (collection, id) in rows {
        doc := Some(rows[(collection, id)]);
      } else {
        doc := None;
      }
    }

    /** INSERT OR REPLACE. */
    method Put(collection: string, id: string, doc: Doc)
      modifies this
      ensures rows == old(rows)[(collection, id) := doc]
    {
      rows := rows[(collection, id) := doc];
    }

    method Update(collection: string, id: string, patch: Doc) returns (next: Doc)
      modifies this
      ensures next == Merged(old(Lookup(rows, collection, id)), id, patch)
      ensures rows == old(rows)[(collection, id) := next]
    {
      var row := Get(collection, id);
      var cur := if row.Some? then row.value else map[Id := Str(id)];
      next := cur + patch;
      next := next[Id := Str(id)];
      rows := rows[(collection, id) := next];
    }

    /** INSERT OR IGNORE, under the given id or a generated one. */
    method Append(collection: string, doc: Doc, id: Option<string>, generated: string) returns (key: string)
      modifies this
      ensures key == id.GetOr(generated)
      ensures rows == Inserted(old(rows), collection, key, doc[Id := Str(key)])
    {
      key := if id.Some? then id.value else generated;
      if (collection, key) !in rows {
        rows := rows[(collection, key) := doc[Id := Str(key)]];
      }
    }

    method Delete(collection: string, id: string)
      modifies this
      ensures rows == old(rows) - {(collection, id)}
    {
      rows := rows - {(collection, id)};
    }
  }

  /** A merge changes the patched fields and nothing else, and never changes the id. */
  lemma MergeTouchesPatchOnly(cur: Doc, id: string, patch: Doc, f: Field)
    requires Id in cur && cur[Id] == Str(id)
    ensures var next := Merged(Some(cur), id, patch);
            && next.Keys == cur.Keys + patch.Keys
            && next[Id] == Str(id)
            && (f in cur && f !in patch ==> next[f] == cur[f])
            && (f in patch && f != Id ==> next[f] == patch[f])
  {}

  /** Two merges into one document commute when their patches name different fields. */
  lemma DisjointMergesCommute(cur: Option<Doc>, id: string, p: Doc, q: Doc)
    requires p.Keys !! q.Keys
    ensures Merged(Some(Merged(cur, id, p)), id, q) == Merged(Some(Merged(cur, id, q)), id, p)
  {}

  lemma CollectionAfterWrite(rows: Rows, name: string, id: string, doc: Doc)
    ensures Collection(rows[(name, id) := doc], name) == Collection(rows, name)[id := doc]
    ensures forall other :: other != name ==>
                              Collection(rows[(name, id) := doc], other) == Collection(rows, other)
  {
    var next := rows[(name, id) := doc];
    forall i | i in Collection(rows, name)[id := doc] ensures i in Collection(next, name) {
      assert (name, i) in next;
    }
    forall other | other != name ensures Collection(next, other) == Collection(rows, other) {
      forall i | i in Collection(rows, other) ensures i in Collection(next, other) {
        assert (other, i) in next;
      }
    }
  }

  lemma CollectionAfterDelete(rows: Rows, name: string, id: string)
    ensures Collection(rows - {(name, id)}, name) == Collection(rows, name) - {id}
    ensures forall other :: other != name ==> Collection(rows - {(name, id)}, other) == Collection(rows, other)
  {
    var next := rows - {(name, id)};
    forall i | i in Collection(rows, name) - {id} ensures i in Collection(next, name) {
      assert (name, i) in next;
    }
    forall other | other != name ensures Collection(next, other) == Collection(rows, other) {
      forall i | i in Collection(rows, other) ensures i in Collection(next, other) {
        assert (other, i) in next;
      }
    }
  }
}
