/**
 * The "todos" collection, held in memory instead of in the remote document store.
 * A record carries its store-assigned identifier, the text, the owner's email and the
 * completion flag; the order of the sequence is the order a query returns.
 */
module Store {
  import opened Maybe
  import opened JsString

  type TaskId = nat

  datatype Task = Task(id: TaskId, text: string, email: string, completed: bool)

  /** One `li` element of the task list: its element id is the record's id, its text the record's text. */
  datatype Row = Row(id: TaskId, text: string)

  /** Document identifiers are unique within the collection. */
  predicate UniqueIds(s: seq<Task>) {
    forall i, j :: 0 <= i < j < |s| ==> s[i].id != s[j].id
  }

  /** Every identifier handed out so far is below `n`, so `n` is fresh. */
  predicate IdsBelow(s: seq<Task>, n: TaskId) {
    forall i :: 0 <= i < |s| ==> s[i].id < n
  }

  /** Some record has identifier `id`: the document exists. */
  predicate HasId(s: seq<Task>, id: TaskId) {
    exists i :: 0 <= i < |s| && s[i].id == id
  }

  /** The records a query `where("email", "==", owner)` returns, in collection order. */
  function OwnedBy(s: seq<Task>, owner: string): (r: seq<Task>)
    ensures |r| <= |s|
    ensures forall i :: 0 <= i < |r| ==> r[i].email == owner
  {
    if s == [] then []
    else (if s[0].email == owner then [s[0]] else []) + OwnedBy(s[1..], owner)
  }

  /** The listing holds exactly the owner's records. */
  lemma {:induction false} OwnedByMembers(s: seq<Task>, owner: string)
    ensures forall t :: t in OwnedBy(s, owner) <==> t in s && t.email == owner
  {
    if s != [] {
      OwnedByMembers(s[1..], owner);
      assert forall t :: t in s <==> t == s[0] || t in s[1..];
    }
  }

  /** The query keeps the collection's order: it distributes over concatenation. */
  lemma {:induction false} OwnedByAppend(a: seq<Task>, b: seq<Task>, owner: string)
    ensures OwnedBy(a + b, owner) == OwnedBy(a, owner) + OwnedBy(b, owner)
  {
    if a == [] {
      assert a + b == b;
    } else {
      assert (a + b)[0] == a[0] && (a + b)[1..] == a[1..] + b;
      OwnedByAppend(a[1..], b, owner);
    }
  }

  lemma {:induction false} OwnedByUnique(s: seq<Task>, owner: string)
    requires UniqueIds(s)
    ensures UniqueIds(OwnedBy(s, owner))
  {
    if s != [] {
      OwnedByUnique(s[1..], owner);
      OwnedByMembers(s[1..], owner);
      var rest := OwnedBy(s[1..], owner);
      forall j | 0 <= j < |rest| ensures rest[j].id != s[0].id {
        assert rest[j] in s[1..];
      }
    }
  }

  /** deleteDoc: the records left are exactly those with another identifier. */
  function RemoveId(s: seq<Task>, id: TaskId): (r: seq<Task>)
    ensures |r| <= |s|
    ensures forall i :: 0 <= i < |r| ==> r[i].id != id
  {
    if s == [] then []
    else (if s[0].id != id then [s[0]] else []) + RemoveId(s[1..], id)
  }

  /** The records left are exactly those with another identifier. */
  lemma {:induction false} RemoveIdMembers(s: seq<Task>, id: TaskId)
    ensures forall t :: t in RemoveId(s, id) <==> t in s && t.id != id
  {
    if s != [] {
      RemoveIdMembers(s[1..], id);
      assert forall t :: t in s <==> t == s[0] || t in s[1..];
    }
  }

  lemma {:induction false} RemoveIdAbsent(s: seq<Task>, id: TaskId)
    requires forall i :: 0 <= i < |s| ==> s[i].id != id
    ensures RemoveId(s, id) == s
  {
    if s != [] {
      RemoveIdAbsent(s[1..], id);
    }
  }

  /** Deleting by identifier keeps the identifiers unique and below the next fresh one. */
  lemma RemoveIdValid(s: seq<Task>, id: TaskId, n: TaskId)
    requires UniqueIds(s) && IdsBelow(s, n)
    ensures UniqueIds(RemoveId(s, id)) && IdsBelow(RemoveId(s, id), n)
  {
    RemoveIdUnique(s, id);
    RemoveIdMembers(s, id);
    var r := RemoveId(s, id);
    forall i | 0 <= i < |r| ensures r[i].id < n {
      assert r[i] in s;
    }
  }

  lemma {:induction false} RemoveIdUnique(s: seq<Task>, id: TaskId)
    requires UniqueIds(s)
    ensures UniqueIds(RemoveId(s, id))
  {
    if s != [] {
      RemoveIdUnique(s[1..], id);
      RemoveIdMembers(s[1..], id);
      var rest := RemoveId(s[1..], id);
      forall j | 0 <= j < |rest| ensures rest[j].id != s[0].id {
        assert rest[j] in s[1..];
      }
    }
  }

  /** With unique identifiers, deleting by the id of the record at `k` removes that record and no other. */
  lemma {:induction false} RemoveIdAt(s: seq<Task>, k: nat)
    requires UniqueIds(s) && k < |s|
    ensures RemoveId(s, s[k].id) == s[..k] + s[k + 1..]
  {
    if k == 0 {
      RemoveIdAbsent(s[1..], s[0].id);
    } else {
      RemoveIdAt(s[1..], k - 1);
      assert s[1..][..k - 1] == s[1..k] && s[1..][k..] == s[k + 1..];
      assert s[..k] == [s[0]] + s[1..k];
    }
  }

  lemma {:induction false} RemoveIdAppend(a: seq<Task>, b: seq<Task>, id: TaskId)
    ensures RemoveId(a + b, id) == RemoveId(a, id) + RemoveId(b, id)
  {
    if a == [] {
      assert a + b == b;
    } else {
      assert (a + b)[0] == a[0] && (a + b)[1..] == a[1..] + b;
      RemoveIdAppend(a[1..], b, id);
    }
  }

  /** Deleting a record and then querying an owner is the same as querying and then deleting. */
  lemma {:induction false} OwnedByRemoveId(s: seq<Task>, id: TaskId, owner: string)
    ensures OwnedBy(RemoveId(s, id), owner) == RemoveId(OwnedBy(s, owner), id)
  {
    if s != [] {
      var h := if s[0].id != id then [s[0]] else [];
      var g := if s[0].email == owner then [s[0]] else [];
      OwnedByAppend(h, RemoveId(s[1..], id), owner);
      OwnedByRemoveId(s[1..], id, owner);
      RemoveIdAppend(g, OwnedBy(s[1..], owner), id);
    }
  }

  /** updateDoc(..., {completed: true}) on the record with identifier `id`. */
  function SetCompleted(s: seq<Task>, id: TaskId): (r: seq<Task>)
    ensures |r| == |s|
    ensures forall i :: 0 <= i < |s| ==> r[i].id == s[i].id && r[i].text == s[i].text && r[i].email == s[i].email
  {
    seq(|s|, i requires 0 <= i < |s| => if s[i].id == id then s[i].(completed := true) else s[i])
  }

  /** With unique identifiers, marking the record at `k` complete changes only its flag. */
  lemma SetCompletedAt(s: seq<Task>, k: nat)
    requires UniqueIds(s) && k < |s|
    ensures SetCompleted(s, s[k].id) == s[k := s[k].(completed := true)]
  {
  }

  /** Marking a record complete never moves a record out of or into an owner's listing. */
  lemma {:induction false} OwnedBySetCompleted(s: seq<Task>, id: TaskId, owner: string)
    ensures OwnedBy(SetCompleted(s, id), owner) == SetCompleted(OwnedBy(s, owner), id)
  {
    if s != [] {
      var r := SetCompleted(s, id);
      assert r[1..] == SetCompleted(s[1..], id);
      OwnedBySetCompleted(s[1..], id, owner);
      var h := if s[0].email == owner then [s[0]] else [];
      assert OwnedBy(s, owner) == h + OwnedBy(s[1..], owner);
    }
  }

  /** An added record appears at the end of its owner's listing and in no other owner's. */
  lemma OwnedByAdded(s: seq<Task>, t: Task, owner: string)
    ensures OwnedBy(s + [t], owner) == OwnedBy(s, owner) + (if t.email == owner then [t] else [])
  {
    OwnedByAppend(s, [t], owner);
  }

  /** The `tasks.find` predicate: the texts agree once both are lower-cased, so only texts of one length match. */
  predicate NameMatches(t: Task, name: string): (b: bool)
    ensures b ==> |t.text| == |name|
  {
    ToLower(t.text) == ToLower(name)
  }

  /** Two texts match exactly when they have one length and agree character by character once lower-cased. */
  lemma NameMatchesIff(t: Task, name: string)
    ensures NameMatches(t, name) <==>
      |t.text| == |name| && forall i :: 0 <= i < |name| ==> ToLowerChar(t.text[i]) == ToLowerChar(name[i])
  {
    if |t.text| == |name| && forall i :: 0 <= i < |name| ==> ToLowerChar(t.text[i]) == ToLowerChar(name[i]) {
      assert ToLower(t.text) == ToLower(name);
    }
  }

  function FindFrom(docs: seq<Task>, name: string, from: nat): (r: Option<nat>)
    requires from <= |docs|
    ensures r.Some? ==> from <= r.value < |docs| && NameMatches(docs[r.value], name)
    ensures r.Some? ==> forall j :: from <= j < r.value ==> !NameMatches(docs[j], name)
    ensures r.None? ==> forall j :: from <= j < |docs| ==> !NameMatches(docs[j], name)
    decreases |docs| - from
  {
    if from == |docs| then None
    else if NameMatches(docs[from], name) then Some(from)
    else FindFrom(docs, name, from + 1)
  }

  /** Array.prototype.find, as the position of the first matching record. */
  function FindByName(docs: seq<Task>, name: string): (r: Option<nat>)
    ensures r.Some? ==> r.value < |docs| && NameMatches(docs[r.value], name)
    ensures r.Some? ==> forall j :: 0 <= j < r.value ==> !NameMatches(docs[j], name)
    ensures r.None? <==> forall j :: 0 <= j < |docs| ==> !NameMatches(docs[j], name)
  {
    FindFrom(docs, name, 0)
  }

  function RowOf(t: Task): Row {
    Row(t.id, t.text)
  }

  /** The rows renderTasks builds: one per record, in listing order. */
  function Rows(docs: seq<Task>): (r: seq<Row>)
    ensures |r| == |docs|
    ensures forall i :: 0 <= i < |docs| ==> r[i].id == docs[i].id && r[i].text == docs[i].text
  {
    if docs == [] then [] else Rows(docs[..|docs| - 1]) + [RowOf(docs[|docs| - 1])]
  }

  /** Rendering one more record adds its row at the end. */
  lemma RowsSnoc(docs: seq<Task>, i: nat)
    requires i < |docs|
    ensures Rows(docs[..i + 1]) == Rows(docs[..i]) + [RowOf(docs[i])]
  {
    assert docs[..i + 1][..i] == docs[..i];
  }

  /**
   * Removing the clicked row in place (handleTaskClick) leaves exactly the rows a fresh
   * render of the owner's listing would show after the record is deleted.
   */
  lemma RowRemovalMatchesRender(s: seq<Task>, owner: string, k: nat)
    requires UniqueIds(s) && k < |OwnedBy(s, owner)|
    ensures var rows := Rows(OwnedBy(s, owner));
      rows[..k] + rows[k + 1..] == Rows(OwnedBy(RemoveId(s, rows[k].id), owner))
  {
    var docs := OwnedBy(s, owner);
    var id := docs[k].id;
    OwnedByUnique(s, owner);
    OwnedByRemoveId(s, id, owner);
    RemoveIdAt(docs, k);
    RowsWithout(docs, k);
  }

  lemma RowsWithout(docs: seq<Task>, k: nat)
    requires k < |docs|
    ensures Rows(docs[..k] + docs[k + 1..]) == Rows(docs)[..k] + Rows(docs)[k + 1..]
  {
    var l, r := Rows(docs[..k] + docs[k + 1..]), Rows(docs)[..k] + Rows(docs)[k + 1..];
    assert |l| == |r|;
    forall i | 0 <= i < |l| ensures l[i] == r[i] {
      if i < k {
        assert (docs[..k] + docs[k + 1..])[i] == docs[i];
      } else {
        assert (docs[..k] + docs[k + 1..])[i] == docs[i + 1];
      }
    }
  }

  /**
   * Deleting the match found in the owner's listing removes exactly one record of the
   * collection, at some position `j`, and leaves every other owner's listing as it was.
   */
  lemma DeleteFoundRecord(s: seq<Task>, owner: string, k: nat) returns (j: nat)
    requires UniqueIds(s) && k < |OwnedBy(s, owner)|
    ensures j < |s| && s[j] == OwnedBy(s, owner)[k]
    ensures RemoveId(s, s[j].id) == s[..j] + s[j + 1..]
    ensures var docs := OwnedBy(s, owner);
      OwnedBy(RemoveId(s, s[j].id), owner) == docs[..k] + docs[k + 1..]
    ensures forall other :: other != owner ==> OwnedBy(RemoveId(s, s[j].id), other) == OwnedBy(s, other)
  {
    var docs := OwnedBy(s, owner);
    OwnedByMembers(s, owner);
    assert docs[k] in s;
    j :| 0 <= j < |s| && s[j] == docs[k];
    RemoveIdAt(s, j);
    OwnedByUnique(s, owner);
    OwnedByRemoveId(s, s[j].id, owner);
    RemoveIdAt(docs, k);
    forall other | other != owner
      ensures OwnedBy(RemoveId(s, s[j].id), other) == OwnedBy(s, other)
    {
      OwnedByWithout(s, j, other);
    }
  }

  /** Removing a record of another owner does not change an owner's listing. */
  lemma OwnedByWithout(s: seq<Task>, j: nat, other: string)
    requires j < |s| && s[j].email != other
    ensures OwnedBy(s[..j] + s[j + 1..], other) == OwnedBy(s, other)
  {
    var a, x, b := s[..j], [s[j]], s[j + 1..];
    assert s == a + (x + b);
    assert OwnedBy(x, other) == [] by {
      assert x[1..] == [];
    }
    OwnedByAppend(x, b, other);
    assert OwnedBy(x + b, other) == OwnedBy(b, other);
    OwnedByAppend(a, x + b, other);
    OwnedByAppend(a, b, other);
  }
}
