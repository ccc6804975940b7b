/**
 * InMemoryFileStatusStore: the status of every file being sorted, keyed by the file's id, in a
 * dictionary that SetStatus overwrites and GetStatus reads.
 */
module StatusStore {

  /** FileStatusEnum. */
  datatype FileStatus = NotFound | InProgress | Completed | Failed

  /** Enum.ToString(): the member's name. */
  function Name(s: FileStatus): (r: string)
    ensures |r| > 0
  {
    match s
    case NotFound => "NotFound"
    case InProgress => "InProgress"
    case Completed => "Completed"
    case Failed => "Failed"
  }

  /** Different statuses have different names, so GetStatus's string identifies the status. */
  lemma NameInjective(a: FileStatus, b: FileStatus)
    ensures Name(a) == Name(b) <==> a == b
  {
    if a != b {
      assert Name(a)[0] != Name(b)[0] || |Name(a)| != |Name(b)|;
    }
  }

  /** A Guid: 128 bits. */
  type Guid = x: nat | x < 0x1_0000_0000_0000_0000_0000_0000_0000_0000

  /** What GetStatus answers for id when the dictionary is table. */
  function Lookup(table: map<Guid, FileStatus>, id: Guid): string {
    if id in table then Name(table[id]) else Name(NotFound)
  }

  class InMemoryFileStatusStore {
    var store: map<Guid, FileStatus>

    /** A new store knows no id. */
    constructor ()
      ensures store == map[]
    {
      store := map[];
    }

    /** Records status for id, replacing any earlier one. */
    method SetStatus(id: Guid, status: FileStatus)
      modifies this
      ensures store == old(store)[id := status]
    {
      store := store[id := status];
    }

    /** The name of id's status, or "NotFound" for an id never set. */
    method GetStatus(id: Guid) returns (r: string)
      ensures r == Lookup(store, id)
    {
      if id in store {
        r := Name(store[id]);
      } else {
        r := Name(NotFound);
      }
    }
  }

  /** After SetStatus(id, s), GetStatus(id) answers s: the last write wins. */
  lemma LastWriteWins(table: map<Guid, FileStatus>, id: Guid, first: FileStatus, second: FileStatus)
    ensures Lookup(table[id := first][id := second], id) == Name(second)
  {
  }

  /** SetStatus(id, s) leaves the answer for every other id as it was. */
  lemma OtherIdsUnchanged(table: map<Guid, FileStatus>, id: Guid, status: FileStatus, other: Guid)
    requires other != id
    ensures Lookup(table[id := status], other) == Lookup(table, other)
  {
  }

  /** An id no SetStatus has named answers "NotFound". */
  lemma NeverSet(id: Guid)
    ensures Lookup(map[], id) == "NotFound"
  {
  }

  /** "NotFound" answers both an unknown id and an id whose status was set to NotFound. */
  lemma NotFoundAmbiguous(table: map<Guid, FileStatus>, id: Guid)
    requires id !in table
    ensures Lookup(table[id := NotFound], id) == Lookup(table, id)
  {
  }

  /** The table after a sequence of SetStatus calls, in order. */
  function Apply(table: map<Guid, FileStatus>, writes: seq<(Guid, FileStatus)>): map<Guid, FileStatus>
    decreases |writes|
  {
    if writes == [] then table else Apply(table[writes[0].0 := writes[0].1], writes[1..])
  }

  lemma {:induction false} ApplyAppend(table: map<Guid, FileStatus>, writes: seq<(Guid, FileStatus)>, w: (Guid, FileStatus))
    ensures Apply(table, writes + [w]) == Apply(table, writes)[w.0 := w.1]
    decreases |writes|
  {
    if writes == [] {
      assert [w][1..] == [];
    } else {
      assert (writes + [w])[1..] == writes[1..] + [w];
      ApplyAppend(table[writes[0].0 := writes[0].1], writes[1..], w);
    }
  }

  /** After any writes, an id's answer is its last write's status, or the old answer if none named it. */
  lemma {:induction false} ApplyLookup(table: map<Guid, FileStatus>, writes: seq<(Guid, FileStatus)>, id: Guid)
    ensures (exists k :: 0 <= k < |writes| && writes[k].0 == id) ==>
      Lookup(Apply(table, writes), id) == Name(writes[LastWrite(writes, id)].1)
    ensures (forall k :: 0 <= k < |writes| ==> writes[k].0 != id) ==>
      Lookup(Apply(table, writes), id) == Lookup(table, id)
    decreases |writes|
  {
    if writes != [] {
      var front := writes[..|writes| - 1];
      var w := writes[|writes| - 1];
      assert writes == front + [w];
      ApplyAppend(table, front, w);
      ApplyLookup(table, front, id);
    }
  }

  /** The index of the last write naming id. */
  function LastWrite(writes: seq<(Guid, FileStatus)>, id: Guid): (k: nat)
    requires exists k :: 0 <= k < |writes| && writes[k].0 == id
    ensures k < |writes| && writes[k].0 == id
    ensures forall j :: k < j < |writes| ==> writes[j].0 != id
  {
    if writes[|writes| - 1].0 == id then |writes| - 1
    else
      var front := writes[..|writes| - 1];
      assert exists k :: 0 <= k < |front| && front[k].0 == id;
      LastWrite(front, id)
  }
}
