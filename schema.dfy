/**
 * The two Convex tables (convex/schema.ts): documents are stored in maps from
 * id to record, ids are natural numbers handed out in increasing order, so the
 * order of ids is the order of creation.
 */
module Schema {
  import opened Wrappers

  datatype Role = Manager | Employee

  /** A row of the `users` table. */
  datatype User = User(name: string, username: string, password: string, role: Role, avatarUrl: Option<string>)

  /** A row of the `shifts` table; `employeeId` is not checked against `users`. */
  datatype Shift = Shift(employeeId: nat, day: string, startTime: string, endTime: string, task: string)

  /** A stored document: its id and its fields. */
  datatype Doc<T> = Doc(id: nat, value: T)

  /** A snapshot of the database: both tables and the next free id of each. */
  datatype Tables = Tables(users: map<nat, User>, shifts: map<nat, Shift>, nextUser: nat, nextShift: nat)

  /** Every stored id is below the next free id of its table. */
  predicate Bounded<T>(m: map<nat, T>, bound: nat) {
    forall i :: i in m ==> i < bound
  }

  predicate WellFormed(t: Tables) {
    Bounded(t.users, t.nextUser) && Bounded(t.shifts, t.nextShift)
  }

  /** The documents with ids below `bound`, in increasing id order: a full table scan. */
  function Collect<T>(m: map<nat, T>, bound: nat): (docs: seq<Doc<T>>)
    ensures |docs| <= bound
    ensures forall k :: 0 <= k < |docs| ==> docs[k].id < bound
  {
    if bound == 0 then []
    else Collect(m, bound - 1) + (if bound - 1 in m then [Doc(bound - 1, m[bound - 1])] else [])
  }

  /** Ids strictly increase along a sequence of documents. */
  predicate IdsIncreasing<T>(docs: seq<Doc<T>>) {
    forall j, k :: 0 <= j < k < |docs| ==> docs[j].id < docs[k].id
  }

  /** A scan holds exactly the stored documents below the bound, each once and in id order. */
  lemma {:induction false} CollectSpec<T>(m: map<nat, T>, bound: nat)
    ensures forall d :: d in Collect(m, bound) <==> d.id < bound && d.id in m && m[d.id] == d.value
    ensures IdsIncreasing(Collect(m, bound))
  {
    if bound > 0 {
      CollectSpec(m, bound - 1);
    }
  }

  /** Scanning up to the next free id visits every stored document. */
  lemma CollectAll<T>(m: map<nat, T>, bound: nat)
    requires Bounded(m, bound)
    ensures forall d :: d in Collect(m, bound) <==> d.id in m && m[d.id] == d.value
    ensures |Collect(m, bound)| == |m|
  {
    CollectSpec(m, bound);
    CollectSize(m, bound);
  }

  function KeysBelow<T>(m: map<nat, T>, bound: nat): set<nat> {
    set i | i in m && i < bound
  }

  lemma {:induction false} CollectCount<T>(m: map<nat, T>, bound: nat)
    ensures |Collect(m, bound)| == |KeysBelow(m, bound)|
  {
    if bound > 0 {
      CollectCount(m, bound - 1);
      if bound - 1 in m {
        assert KeysBelow(m, bound) == KeysBelow(m, bound - 1) + {bound - 1};
      } else {
        assert KeysBelow(m, bound) == KeysBelow(m, bound - 1);
      }
    } else {
      assert KeysBelow(m, bound) == {};
    }
  }

  lemma CollectSize<T>(m: map<nat, T>, bound: nat)
    requires Bounded(m, bound)
    ensures |Collect(m, bound)| == |m|
  {
    CollectCount(m, bound);
    assert KeysBelow(m, bound) == m.Keys;
  }

  /** Below the bound, a scan only sees the entries it visits. */
  lemma {:induction false} CollectPrefix<T>(m: map<nat, T>, m': map<nat, T>, bound: nat)
    requires forall i :: i < bound ==> (i in m <==> i in m') && (i in m ==> m[i] == m'[i])
    ensures Collect(m, bound) == Collect(m', bound)
  {
    if bound > 0 {
      CollectPrefix(m, m', bound - 1);
    }
  }
}
