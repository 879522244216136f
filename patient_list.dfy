/**
 * ADSA/Assignment-2/Task2.py: a circular singly-linked list of patients.
 * `head` is the first patient; following `next` from any patient reaches the
 * next one in round-robin order, and the last patient's `next` is the head.
 * The ghost sequence `nodes` is that order, starting at the head. Where the
 * Python prints a message, the model returns a value.
 */
module PatientList {
  import opened Wrappers

  /** What a patient record holds, without its link. */
  datatype Record = Record(name: string, age: int, id: int)

  /** `Patient`: one node; a new node has no successor yet. */
  class Patient {
    const name: string
    const age: int
    const id: int
    var next: Patient?

    constructor (name: string, age: int, patientId: int)
      ensures this.name == name && this.age == age && this.id == patientId
      ensures next == null
    {
      this.name := name;
      this.age := age;
      this.id := patientId;
      next := null;
    }

    function Rec(): Record
    {
      Record(name, age, id)
    }
  }

  /** The records of `ns`, in order. */
  function Records(ns: seq<Patient>): (rs: seq<Record>)
    ensures |rs| == |ns|
    ensures forall i :: 0 <= i < |ns| ==> rs[i] == ns[i].Rec()
  {
    seq(|ns|, i requires 0 <= i < |ns| => ns[i].Rec())
  }

  /** Position of the first record with the given id, if any. */
  function FirstWithId(rs: seq<Record>, patientId: int): (r: Option<nat>)
    ensures r.None? <==> forall j :: 0 <= j < |rs| ==> rs[j].id != patientId
    ensures r.Some? ==> r.value < |rs| && rs[r.value].id == patientId
    ensures r.Some? ==> forall j :: 0 <= j < r.value ==> rs[j].id != patientId
  {
    if rs == [] then None
    else if rs[0].id == patientId then Some(0)
    else match FirstWithId(rs[1..], patientId)
      case None => None
      case Some(k) => Some(k + 1)
  }

  /** `s` without its element at position `i`. */
  function RemoveAt<T>(s: seq<T>, i: nat): (r: seq<T>)
    requires i < |s|
    ensures |r| == |s| - 1
    ensures forall j :: 0 <= j < i ==> r[j] == s[j]
    ensures forall j :: i <= j < |r| ==> r[j] == s[j + 1]
  {
    s[..i] + s[i + 1..]
  }

  /** The first node of `ns` with the id is at `i` when none before it has the id. */
  lemma FirstMatchAt(ns: seq<Patient>, patientId: int, i: nat)
    requires i < |ns| && ns[i].id == patientId
    requires forall j :: 0 <= j < i ==> ns[j].id != patientId
    ensures FirstWithId(Records(ns), patientId) == Some(i)
  {
    var rs := Records(ns);
    assert rs[i].id == patientId;
  }

  /** Removing a node removes its record. */
  lemma RecordsRemoveAt(ns: seq<Patient>, i: nat)
    requires i < |ns|
    ensures Records(RemoveAt(ns, i)) == RemoveAt(Records(ns), i)
  {
  }

  /** The result of `delete_patient`, in place of its printed messages. */
  datatype DeleteOutcome =
    | ListEmpty           // "List is empty."
    | OnlyPatientDeleted  // "Only patient deleted. List empty now."
    | HeadDeleted         // "Head patient deleted with ID: ..."
    | PatientDeleted      // "Patient deleted with ID: ..."
    | NotFound            // "Patient not found with ID: ..."

  class CircularPatientList {
    var head: Patient?
    ghost var nodes: seq<Patient>

    /** The cycle: distinct nodes, each linked to the following one, the last to the head. */
    ghost predicate Valid()
      reads this, nodes
    {
      && (head == null <==> nodes == [])
      && (head != null ==> head == nodes[0])
      && (forall i, j :: 0 <= i < j < |nodes| ==> nodes[i] != nodes[j])
      && (forall i :: 0 <= i < |nodes| - 1 ==> nodes[i].next == nodes[i + 1])
      && (nodes != [] ==> nodes[|nodes| - 1].next == nodes[0])
    }

    /** Only the last node links back to the head. */
    lemma OnlyLastLinksToHead(i: nat)
      requires Valid() && i < |nodes| && nodes[i].next == head
      ensures i == |nodes| - 1
    {
      forall k | 0 <= k < |nodes| - 1
        ensures nodes[k].next != nodes[0]
      {
        assert nodes[k].next == nodes[k + 1];
        assert nodes[0] != nodes[k + 1];
      }
    }

    /** Every node's successor is again a node of the cycle. */
    lemma NextStaysInCycle(p: Patient)
      requires Valid() && p in nodes
      ensures p.next != null && p.next in nodes
    {
      var j :| 0 <= j < |nodes| && nodes[j] == p;
      if j < |nodes| - 1 {
        assert p.next == nodes[j + 1];
      }
    }

    /** The node reached from the head after following `next` k times. */
    ghost function Walk(k: nat): (p: Patient)
      requires Valid() && head != null
      reads this, nodes
      ensures p in nodes
    {
      if k == 0 then head
      else
        var q := Walk(k - 1);
        NextStaysInCycle(q);
        q.next
    }

    /** Following `next` from the head meets the nodes in order and is back at the head after |nodes| steps. */
    lemma {:induction false} WalkFollowsNodes(k: nat)
      requires Valid() && head != null && k <= |nodes|
      ensures Walk(k) == if k == |nodes| then head else nodes[k]
    {
      if k > 0 {
        WalkFollowsNodes(k - 1);
      }
    }

    /**
     * The circular invariant: walking from the head visits every node exactly
     * once and returns to the head for the first time after |nodes| steps.
     */
    lemma CircularTraversal()
      requires Valid() && head != null
      ensures Walk(|nodes|) == head
      ensures forall k :: 0 <= k < |nodes| ==> Walk(k) == nodes[k]
      ensures forall j, k :: 0 <= j < k < |nodes| ==> Walk(j) != Walk(k)
      ensures forall k :: 0 < k < |nodes| ==> Walk(k) != head
    {
      WalkFollowsNodes(|nodes|);
      forall k | 0 <= k < |nodes|
        ensures Walk(k) == nodes[k]
      {
        WalkFollowsNodes(k);
      }
    }

    /** The patients in round-robin order from the head. */
    ghost function Contents(): seq<Record>
      reads this
    {
      Records(nodes)
    }

    constructor ()
      ensures Valid() && nodes == []
    {
      head := null;
      nodes := [];
    }

    /** `insert_patient`: the new patient becomes the last one, just before the head. */
    method InsertPatient(name: string, age: int, patientId: int)
      requires Valid()
      modifies this, nodes
      ensures Valid()
      ensures Contents() == old(Contents()) + [Record(name, age, patientId)]
      ensures |nodes| == |old(nodes)| + 1 && nodes[..|old(nodes)|] == old(nodes)
      ensures fresh(nodes[|old(nodes)|])
      ensures old(head) == null ==> head != null && head.next == head
      ensures old(head) != null ==> head == old(head)
    {
      var newPatient := new Patient(name, age, patientId);
      if head == null {
        head := newPatient;
        newPatient.next := head;
        nodes := [newPatient];
      } else {
        var temp := head;
        ghost var i := 0;
        while temp.next != head
          invariant 0 <= i < |nodes| && temp == nodes[i]
          decreases |nodes| - i
        {
          temp := temp.next;
          i := i + 1;
        }
        OnlyLastLinksToHead(i);
        temp.next := newPatient;
        newPatient.next := head;
        nodes := nodes + [newPatient];
      }
      assert Records(nodes) == Records(old(nodes)) + [Record(name, age, patientId)];
    }

    /**
     * `delete_patient`: removes the first patient, in round-robin order from
     * the head, whose id matches, and reports which of the source's cases
     * applied; with no match nothing changes.
     */
    method DeletePatient(patientId: int) returns (outcome: DeleteOutcome)
      requires Valid()
      modifies this, nodes
      ensures Valid()
      ensures outcome == ListEmpty <==> old(nodes) == []
      ensures outcome == OnlyPatientDeleted <==> |old(nodes)| == 1 && old(nodes)[0].id == patientId
      ensures outcome == HeadDeleted <==> |old(nodes)| > 1 && old(nodes)[0].id == patientId
      ensures outcome == PatientDeleted <==> FirstWithId(old(Contents()), patientId).Some? && FirstWithId(old(Contents()), patientId).value > 0
      ensures outcome == NotFound <==> old(nodes) != [] && FirstWithId(old(Contents()), patientId).None?
      ensures FirstWithId(old(Contents()), patientId).None? ==> nodes == old(nodes) && head == old(head)
      ensures FirstWithId(old(Contents()), patientId).Some? ==>
                nodes == RemoveAt(old(nodes), FirstWithId(old(Contents()), patientId).value)
      ensures FirstWithId(old(Contents()), patientId).Some? ==>
                Contents() == RemoveAt(old(Contents()), FirstWithId(old(Contents()), patientId).value)
      ensures outcome == HeadDeleted ==> head == old(nodes)[1]
    {
      if head == null {
        return ListEmpty;
      }
      var temp := head;
      assert |nodes| > 1 ==> nodes[0].next == nodes[1] && nodes[1] != nodes[0];

      // Only one node.
      if temp.id == patientId && temp.next == head {
        head := null;
        nodes := [];
        return OnlyPatientDeleted;
      }

      // The head, with more nodes.
      if temp.id == patientId {
        UnlinkHead();
        RecordsRemoveAt(old(nodes), 0);
        return HeadDeleted;
      }

      // A node after the head.
      outcome := UnlinkAfterHead(patientId);
      if outcome == PatientDeleted {
        RecordsRemoveAt(old(nodes), FirstWithId(old(Contents()), patientId).value);
      }
    }

    /** Case 2 of `delete_patient`: the last node is re-linked to the second, which becomes the head. */
    method UnlinkHead()
      requires Valid() && |nodes| > 1
      modifies this, nodes
      ensures Valid()
      ensures nodes == old(nodes)[1..] && head == old(nodes)[1]
    {
      var last := head;
      ghost var i := 0;
      while last.next != head
        invariant 0 <= i < |nodes| && last == nodes[i]
        decreases |nodes| - i
      {
        last := last.next;
        i := i + 1;
      }
      OnlyLastLinksToHead(i);
      assert last != head && head.next == nodes[1];
      last.next := head.next;
      head := head.next;
      nodes := nodes[1..];
    }

    /** Case 3 of `delete_patient`: walks on from the head and unlinks the first later node with the id. */
    method UnlinkAfterHead(patientId: int) returns (outcome: DeleteOutcome)
      requires Valid() && nodes != [] && nodes[0].id != patientId
      modifies this, nodes
      ensures Valid()
      ensures outcome == PatientDeleted || outcome == NotFound
      ensures outcome == PatientDeleted <==> FirstWithId(old(Contents()), patientId).Some?
      ensures outcome == NotFound ==> nodes == old(nodes) && head == old(head)
      ensures outcome == PatientDeleted ==>
                nodes == RemoveAt(old(nodes), FirstWithId(old(Contents()), patientId).value)
    {
      var temp := head;
      var prev: Patient? := null;
      ghost var i := 0;
      while temp.next != head
        invariant 0 <= i < |nodes| && temp == nodes[i]
        invariant forall j :: 0 <= j <= i ==> nodes[j].id != patientId
        invariant unchanged(this) && unchanged(nodes) && Valid()
        decreases |nodes| - i
      {
        assert i + 1 < |nodes| && temp.next == nodes[i + 1];
        prev := temp;
        temp := temp.next;
        i := i + 1;
        if temp.id == patientId {
          FirstMatchAt(nodes, patientId, i);
          UnlinkNext(prev, temp, i - 1);
          return PatientDeleted;
        }
      }
      OnlyLastLinksToHead(i);
      assert forall j :: 0 <= j < |nodes| ==> Contents()[j].id != patientId;
      return NotFound;
    }

    /** `prev.next = temp.next`: unlinks `temp`, the node after `prev`, which is not the head. */
    method UnlinkNext(prev: Patient, temp: Patient, ghost i: nat)
      requires Valid() && i + 1 < |nodes| && prev == nodes[i] && temp == nodes[i + 1]
      modifies this, prev
      ensures Valid()
      ensures nodes == RemoveAt(old(nodes), i + 1) && head == old(head)
    {
      assert temp.next == if i + 2 < |nodes| then nodes[i + 2] else nodes[0];
      prev.next := temp.next;
      nodes := RemoveAt(nodes, i + 1);
    }

    /** `display`, without the printing: the records met walking from the head until it comes round again. */
    method Display() returns (records: seq<Record>)
      requires Valid()
      ensures records == Contents()
    {
      if head == null {
        return [];
      }
      records := [];
      var temp := head;
      ghost var i := 0;
      while true
        invariant 0 <= i < |nodes| && temp == nodes[i]
        invariant records == Contents()[..i]
        decreases |nodes| - i
      {
        records := records + [temp.Rec()];
        assert records == Contents()[..i + 1];
        temp := temp.next;
        if temp == head {
          OnlyLastLinksToHead(i);
          assert records == Contents();
          break;
        }
        i := i + 1;
      }
    }
  }

  /** The script's example: insert Ravi, Sita and Kiran, display, delete id 102, display again. */
  method ExampleUsage() returns (before: seq<Record>, outcome: DeleteOutcome, after: seq<Record>)
    ensures before == [Record("Ravi", 30, 101), Record("Sita", 25, 102), Record("Kiran", 40, 103)]
    ensures outcome == PatientDeleted
    ensures after == [Record("Ravi", 30, 101), Record("Kiran", 40, 103)]
  {
    var cplist := new CircularPatientList();
    cplist.InsertPatient("Ravi", 30, 101);
    cplist.InsertPatient("Sita", 25, 102);
    cplist.InsertPatient("Kiran", 40, 103);
    before := cplist.Display();
    outcome := cplist.DeletePatient(102);
    assert FirstWithId(before, 102) == Some(1);
    after := cplist.Display();
  }
}
