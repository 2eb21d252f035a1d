/**
 * The ontology manager: the query, create and delete operations the
 * scheduling application runs against the knowledge store. The manager owns
 * the store and replaces it as a whole on every change.
 */
module Manager {
  import opened Wrappers
  import opened Store

  /** What the queries show where a value is missing. */
  const NotAvailable: string := "N/A"

  /** The first value of a property, or the sentinel when it has none. */
  function FirstOr(xs: seq<string>): string {
    if xs == [] then NotAvailable else xs[0]
  }

  // --------------------------------------------------------- schedule rows

  /**
   * The positions of `xs` whose element passes `keep`, in increasing order:
   * the schedules keep the entries of a list that pass a test, in list order.
   */
  function Positions<T>(xs: seq<T>, keep: T -> bool): seq<nat>
    decreases |xs|
  {
    if xs == [] then []
    else Positions(xs[..|xs| - 1], keep) + (if keep(xs[|xs| - 1]) then [|xs| - 1] else [])
  }

  /** One row of a surgeon's schedule. */
  datatype SurgeonBooking = SurgeonBooking(surgery: Name, startTime: string, endTime: string, theatre: string)

  /** One row of a theatre's schedule. */
  datatype TheatreBooking = TheatreBooking(surgery: Name, surgeon: string, startTime: string, endTime: string)

  /** The row a surgeon's schedule shows for a surgery that has a timeslot. */
  function SurgeonRow(o: Ontology, surgery: Individual): SurgeonBooking
    requires surgery.hasTimeslot != []
  {
    var slot := Deref(o, surgery.hasTimeslot[0]);
    SurgeonBooking(surgery.name, FirstOr(slot.startTime), FirstOr(slot.endTime), FirstOr(surgery.requiresTheatreType))
  }

  /** The rows for those of `surgeries` that have a timeslot, in list order. */
  function SurgeonRows(o: Ontology, surgeries: seq<Name>): seq<SurgeonBooking>
    decreases |surgeries|
  {
    if surgeries == [] then []
    else
      var rows := SurgeonRows(o, surgeries[..|surgeries| - 1]);
      var surgery := Deref(o, surgeries[|surgeries| - 1]);
      if surgery.hasTimeslot != [] then rows + [SurgeonRow(o, surgery)] else rows
  }

  /** The test a surgeon's schedule applies to each surgery name: it has a timeslot. */
  function Slotted(o: Ontology): Name -> bool {
    surgery => Deref(o, surgery).hasTimeslot != []
  }

  /** A surgeon's schedule: nothing for an unknown name. */
  function SurgeonSchedule(o: Ontology, surgeonName: Name): seq<SurgeonBooking> {
    match SearchOne(o, surgeonName)
    case None => []
    case Some(surgeon) => SurgeonRows(o, surgeon.performsOperation)
  }

  /** Whether a surgery is booked into `theatre`: its first required theatre is that one and it has a timeslot. */
  predicate BookedInto(surgery: Individual, theatre: Name) {
    surgery.requiresTheatreType != [] && surgery.requiresTheatreType[0] == theatre && surgery.hasTimeslot != []
  }

  /** `BookedInto` as the test a theatre's schedule applies to each surgery. */
  function BookedTest(theatre: Name): Individual -> bool {
    surgery => BookedInto(surgery, theatre)
  }

  function TheatreRow(o: Ontology, surgery: Individual): TheatreBooking
    requires surgery.hasTimeslot != []
  {
    var slot := Deref(o, surgery.hasTimeslot[0]);
    TheatreBooking(surgery.name, FirstOr(surgery.performsOperation), FirstOr(slot.startTime), FirstOr(slot.endTime))
  }

  /** The rows for those of `surgeries` booked into `theatre`, in order. */
  function TheatreRows(o: Ontology, surgeries: Ontology, theatre: Name): seq<TheatreBooking>
    decreases |surgeries|
  {
    if surgeries == [] then []
    else
      var rows := TheatreRows(o, surgeries[..|surgeries| - 1], theatre);
      var surgery := surgeries[|surgeries| - 1];
      if BookedInto(surgery, theatre) then rows + [TheatreRow(o, surgery)] else rows
  }

  /** A theatre's schedule: nothing for an unknown name. */
  function TheatreSchedule(o: Ontology, theatreName: Name): seq<TheatreBooking> {
    if theatreName !in Names(o) then [] else TheatreRows(o, Instances(o, Surgery), theatreName)
  }

  // ---------------------------------------------------------- surgery info

  /** The details shown for one surgery. A missing duration is None. */
  datatype ScheduleInfo = ScheduleInfo(
    surgeryName: Name,
    surgeon: string,
    theatre: string,
    timeslot: string,
    startTime: string,
    endTime: string,
    duration: Option<int>,
    isEmergency: bool,
    patientName: string,
    patientWard: string,
    recoveryRoom: string)

  /** The first of `patients` that undergoes `surgery`. */
  function FirstPatient(patients: Ontology, surgery: Name): (r: Option<Individual>)
    ensures r.Some? ==> r.value in patients && surgery in r.value.undergoesSurgery
    ensures r.None? <==> forall p | p in patients :: surgery !in p.undergoesSurgery
  {
    if patients == [] then None
    else if surgery in patients[0].undergoesSurgery then Some(patients[0])
    else FirstPatient(patients[1..], surgery)
  }

  function InfoOf(o: Ontology, surgery: Individual): ScheduleInfo {
    var patient := FirstPatient(Instances(o, Patient), surgery.name);
    var slot := if surgery.hasTimeslot == [] then None else Some(Deref(o, surgery.hasTimeslot[0]));
    ScheduleInfo(
      surgery.name,
      FirstOr(surgery.performsOperation),
      FirstOr(surgery.requiresTheatreType),
      FirstOr(surgery.hasTimeslot),
      if slot.None? then NotAvailable else FirstOr(slot.value.startTime),
      if slot.None? then NotAvailable else FirstOr(slot.value.endTime),
      if surgery.estimatedDuration == [] then None else Some(surgery.estimatedDuration[0]),
      surgery.isEmergency != [] && surgery.isEmergency[0],
      if patient.None? then NotAvailable else patient.value.name,
      if patient.None? then NotAvailable else FirstOr(patient.value.admittedTo),
      if patient.None? then NotAvailable else FirstOr(patient.value.assignedToRecovery))
  }

  /** The details of the named surgery, or None when the name is unknown. */
  function ScheduleInfoOf(o: Ontology, surgeryName: Name): Option<ScheduleInfo> {
    match SearchOne(o, surgeryName)
    case None => None
    case Some(surgery) => Some(InfoOf(o, surgery))
  }

  // -------------------------------------------------------------- summary

  datatype OntologySummary = OntologySummary(
    totalEntities: nat, surgeons: nat, theatres: nat, surgeries: nat, patients: nat, timeslots: nat)

  // ------------------------------------------------------ creation results

  /** The store after adding a surgeon; the theatre is looked up once the surgeon exists. */
  function AddedSurgeon(o: Ontology, name: Name, licenseNumber: string, theatreName: Name): Ontology {
    var o1 := Declare(o, Surgeon, name);
    var x := Deref(o1, name);
    Put(o1, x.(licenseNumber := [licenseNumber],
               worksInTheatre := if theatreName in Names(o1) then [theatreName] else x.worksInTheatre))
  }

  /** The store after adding a surgery; each link is set only when its name resolves. */
  function AddedSurgery(o: Ontology, name: Name, surgeonName: Name, theatreName: Name,
                        timeslotName: Name, duration: int, isEmergency: bool): Ontology
  {
    var o1 := Declare(o, Surgery, name);
    var x := Deref(o1, name);
    Put(o1, x.(estimatedDuration := [duration],
               isEmergency := [isEmergency],
               performsOperation := if surgeonName in Names(o1) then [surgeonName] else x.performsOperation,
               requiresTheatreType := if theatreName in Names(o1) then [theatreName] else x.requiresTheatreType,
               hasTimeslot := if timeslotName in Names(o1) then [timeslotName] else x.hasTimeslot))
  }

  /** The store after adding a timeslot. */
  function AddedTimeslot(o: Ontology, name: Name, start: string, end: string, duration: int): Ontology {
    var o1 := Declare(o, TimeSlot, name);
    var x := Deref(o1, name);
    Put(o1, x.(startTime := [start], endTime := [end], duration := [duration]))
  }

  // ------------------------------------------------------ deletion targets

  /** Whether a surgery's first timeslot is `slot`. */
  predicate InSlot(x: Individual, slot: Name) {
    x.hasTimeslot != [] && x.hasTimeslot[0] == slot
  }

  /** The names of the surgeries whose first timeslot is `slot`, in store order. */
  function SurgeriesInSlot(o: Ontology, slot: Name): (r: seq<Name>)
    ensures forall x | x in o && Surgery in x.classes && InSlot(x, slot) :: x.name in r
    ensures forall n | n in r :: exists x :: x in o && Surgery in x.classes && InSlot(x, slot) && x.name == n
  {
    if o == [] then []
    else
      var rest := SurgeriesInSlot(o[1..], slot);
      assert forall x | x in o :: x == o[0] || x in o[1..];
      (if Surgery in o[0].classes && InSlot(o[0], slot) then [o[0].name] else []) + rest
  }

  /** Every patient name and every surgery name of the store. */
  function ScheduleNames(o: Ontology): set<Name> {
    Elems(NameList(Instances(o, Patient))) + Elems(NameList(Instances(o, Surgery)))
  }

  // ------------------------------------------------------------- manager

  class OntologyManager {
    /** The loaded ontology. */
    var onto: Ontology

    ghost predicate Valid()
      reads this
    {
      WellFormed(onto)
    }

    /** A manager over an ontology already loaded from its file. */
    constructor (loaded: Ontology)
      requires WellFormed(loaded)
      ensures Valid() && onto == loaded
    {
      onto := loaded;
    }

    // ---------------------------------------------------------- queries

    /** All instances of class `c` (the get_all_* accessors). */
    function GetAll(c: OwlClass): (r: Ontology)
      reads this
      ensures forall x :: x in r <==> x in onto && c in x.classes
      ensures |r| <= |onto|
    {
      Instances(onto, c)
    }

    /** The individual a name lookup finds. */
    function GetSurgeonByName(name: Name): (r: Option<Individual>)
      reads this
      ensures r.Some? <==> name in Names(onto)
      ensures r.Some? ==> r.value in onto && r.value.name == name
    {
      SearchOne(onto, name)
    }

    method GetSurgeonSchedule(surgeonName: Name) returns (schedule: seq<SurgeonBooking>)
      ensures schedule == SurgeonSchedule(onto, surgeonName)
    {
      var surgeon := SearchOne(onto, surgeonName);
      if surgeon.None? {
        return [];
      }
      var surgeries := surgeon.value.performsOperation;
      schedule := [];
      var i := 0;
      while i < |surgeries|
        invariant 0 <= i <= |surgeries|
        invariant schedule == SurgeonRows(onto, surgeries[..i])
      {
        var surgery := Deref(onto, surgeries[i]);
        SurgeonRowsSnoc(onto, surgeries, i);
        if surgery.hasTimeslot != [] {
          var slot := Deref(onto, surgery.hasTimeslot[0]);
          schedule := schedule + [SurgeonBooking(surgery.name, FirstOr(slot.startTime), FirstOr(slot.endTime),
                                                 FirstOr(surgery.requiresTheatreType))];
        }
        i := i + 1;
      }
      assert surgeries[..i] == surgeries;
    }

    method GetTheatreSchedule(theatreName: Name) returns (schedule: seq<TheatreBooking>)
      ensures schedule == TheatreSchedule(onto, theatreName)
    {
      var theatre := SearchOne(onto, theatreName);
      if theatre.None? {
        return [];
      }
      var surgeries := Instances(onto, Surgery);
      schedule := [];
      var i := 0;
      while i < |surgeries|
        invariant 0 <= i <= |surgeries|
        invariant schedule == TheatreRows(onto, surgeries[..i], theatreName)
      {
        var surgery := surgeries[i];
        TheatreRowsSnoc(onto, surgeries, theatreName, i);
        if surgery.requiresTheatreType != [] && surgery.requiresTheatreType[0] == theatre.value.name {
          if surgery.hasTimeslot != [] {
            var slot := Deref(onto, surgery.hasTimeslot[0]);
            schedule := schedule + [TheatreBooking(surgery.name, FirstOr(surgery.performsOperation),
                                                   FirstOr(slot.startTime), FirstOr(slot.endTime))];
          }
        }
        i := i + 1;
      }
      assert surgeries[..i] == surgeries;
    }

    method GetScheduleInfo(surgeryName: Name) returns (info: Option<ScheduleInfo>)
      ensures info == ScheduleInfoOf(onto, surgeryName)
    {
      var found := SearchOne(onto, surgeryName);
      if found.None? {
        return None;
      }
      var surgery := found.value;
      var patients := Instances(onto, Patient);
      var patient: Option<Individual> := None;
      var k := 0;
      while k < |patients|
        invariant 0 <= k <= |patients|
        invariant FirstPatient(patients, surgery.name) == FirstPatient(patients[k..], surgery.name)
        invariant patient == None
      {
        if surgery.name in patients[k].undergoesSurgery {
          assert FirstPatient(patients[k..], surgery.name) == Some(patients[k]);
          patient := Some(patients[k]);
          break;
        }
        assert patients[k..][1..] == patients[k + 1..];
        k := k + 1;
      }
      assert patient == FirstPatient(patients, surgery.name);
      var slot := if surgery.hasTimeslot == [] then None else Some(Deref(onto, surgery.hasTimeslot[0]));
      info := Some(ScheduleInfo(
        surgery.name,
        FirstOr(surgery.performsOperation),
        FirstOr(surgery.requiresTheatreType),
        FirstOr(surgery.hasTimeslot),
        if slot.Some? then FirstOr(slot.value.startTime) else NotAvailable,
        if slot.Some? then FirstOr(slot.value.endTime) else NotAvailable,
        if surgery.estimatedDuration != [] then Some(surgery.estimatedDuration[0]) else None,
        if surgery.isEmergency != [] then surgery.isEmergency[0] else false,
        if patient.Some? then patient.value.name else NotAvailable,
        if patient.Some? then FirstOr(patient.value.admittedTo) else NotAvailable,
        if patient.Some? then FirstOr(patient.value.assignedToRecovery) else NotAvailable));
    }

    /** Counts of all individuals and of the instances of each class. */
    function GetOntologySummary(): (s: OntologySummary)
      reads this
      ensures s.surgeons <= s.totalEntities && s.theatres <= s.totalEntities && s.surgeries <= s.totalEntities
      ensures s.patients <= s.totalEntities && s.timeslots <= s.totalEntities
      // on a well-formed store every count is a count of distinct names
      ensures Valid() ==> s.totalEntities == |Names(onto)|
      ensures Valid() ==>
        && s.surgeons == |set x | x in onto && Surgeon in x.classes :: x.name|
        && s.theatres == |set x | x in onto && Theatre in x.classes :: x.name|
        && s.surgeries == |set x | x in onto && Surgery in x.classes :: x.name|
        && s.patients == |set x | x in onto && Patient in x.classes :: x.name|
        && s.timeslots == |set x | x in onto && TimeSlot in x.classes :: x.name|
    {
      UniqueCounts(onto);
      OntologySummary(|onto|, |Instances(onto, Surgeon)|, |Instances(onto, Theatre)|,
                      |Instances(onto, Surgery)|, |Instances(onto, Patient)|, |Instances(onto, TimeSlot)|)
    }

    // ---------------------------------------------------------- creation

    method AddSurgeon(name: Name, licenseNumber: string, theatreName: Name) returns (ok: bool)
      requires Valid()
      modifies this
      ensures Valid() && ok
      ensures onto == AddedSurgeon(old(onto), name, licenseNumber, theatreName)
    {
      Create(Surgeon, name);
      var surgeon := Deref(onto, name);
      surgeon := surgeon.(licenseNumber := [licenseNumber]);
      var theatre := SearchOne(onto, theatreName);
      if theatre.Some? {
        surgeon := surgeon.(worksInTheatre := [theatre.value.name]);
      }
      DerefLinksWithin(onto, name);
      PutKeepsWellFormed(onto, surgeon);
      onto := Put(onto, surgeon);
      ok := true;
    }

    method AddSurgery(name: Name, surgeonName: Name, theatreName: Name, timeslotName: Name,
                      duration: int, isEmergency: bool) returns (ok: bool)
      requires Valid()
      modifies this
      ensures Valid() && ok
      ensures onto == AddedSurgery(old(onto), name, surgeonName, theatreName, timeslotName, duration, isEmergency)
    {
      Create(Surgery, name);
      var surgery := Deref(onto, name);
      surgery := surgery.(estimatedDuration := [duration], isEmergency := [isEmergency]);
      var surgeon := SearchOne(onto, surgeonName);
      if surgeon.Some? {
        surgery := surgery.(performsOperation := [surgeon.value.name]);
      }
      var theatre := SearchOne(onto, theatreName);
      if theatre.Some? {
        surgery := surgery.(requiresTheatreType := [theatre.value.name]);
      }
      var timeslot := SearchOne(onto, timeslotName);
      if timeslot.Some? {
        surgery := surgery.(hasTimeslot := [timeslot.value.name]);
      }
      DerefLinksWithin(onto, name);
      PutKeepsWellFormed(onto, surgery);
      onto := Put(onto, surgery);
      ok := true;
    }

    method AddTimeslot(name: Name, start: string, end: string, duration: int) returns (ok: bool)
      requires Valid()
      modifies this
      ensures Valid() && ok
      ensures onto == AddedTimeslot(old(onto), name, start, end, duration)
    {
      Create(TimeSlot, name);
      var slot := Deref(onto, name);
      slot := slot.(startTime := [start], endTime := [end], duration := [duration]);
      DerefLinksWithin(onto, name);
      PutKeepsWellFormed(onto, slot);
      onto := Put(onto, slot);
      ok := true;
    }

    /** Creating an individual of class `c`: reuse the one of that name, or add a blank one. */
    method Create(c: OwlClass, name: Name)
      requires Valid()
      modifies this
      ensures Valid() && onto == Declare(old(onto), c, name)
    {
      var x := Deref(onto, name);
      DerefLinksWithin(onto, name);
      PutKeepsWellFormed(onto, x.(classes := x.classes + {c}));
      onto := Put(onto, x.(classes := x.classes + {c}));
    }

    // ---------------------------------------------------------- deletion

    /** The store's entity destruction. */
    method DestroyEntity(name: Name)
      requires Valid()
      modifies this
      ensures Valid() && onto == Destroy(old(onto), {name})
    {
      DestroyKeepsWellFormed(onto, {name});
      onto := Destroy(onto, {name});
    }

    /** Destroy each of `names` in turn. */
    method DestroyAll(names: seq<Name>)
      requires Valid()
      modifies this
      ensures Valid() && onto == Destroy(old(onto), Elems(names))
    {
      ghost var o0 := onto;
      var k := 0;
      while k < |names|
        invariant 0 <= k <= |names|
        invariant Valid() && onto == DestroyEach(o0, names[..k])
      {
        DestroyEntity(names[k]);
        assert names[..k + 1][..k] == names[..k];
        k := k + 1;
      }
      assert names[..k] == names;
      DestroyEachIsDestroy(o0, names);
    }

    /** Destroy the patients undergoing a surgery, one by one, then the surgery. */
    method DestroyWithPatients(surgery: Name)
      requires Valid()
      modifies this
      ensures Valid() && onto == Cascade(old(onto), surgery)
    {
      ghost var o0 := onto;
      var patients := PatientsOf(onto, surgery);
      DestroyAll(patients);
      DestroyEntity(surgery);
      DestroyTwice(o0, Elems(patients), {surgery});
      ghost var doomed := Elems(patients) + {surgery};
      assert doomed == UndergoingAny(o0, {surgery}) + {surgery};
      assert onto == Destroy(o0, doomed);
    }

    method DeleteSurgery(surgeryName: Name) returns (ok: bool)
      requires Valid()
      modifies this
      ensures Valid()
      ensures ok <==> surgeryName in Names(old(onto))
      ensures ok ==> onto == Cascade(old(onto), surgeryName)
      ensures !ok ==> onto == old(onto)
    {
      var surgery := SearchOne(onto, surgeryName);
      if surgery.None? {
        return false;
      }
      DestroyWithPatients(surgery.value.name);
      ok := true;
    }

    method DeletePatient(patientName: Name) returns (ok: bool)
      requires Valid()
      modifies this
      ensures Valid()
      ensures ok <==> patientName in Names(old(onto))
      ensures ok ==> onto == Destroy(old(onto), {patientName})
      ensures !ok ==> onto == old(onto)
    {
      var patient := SearchOne(onto, patientName);
      if patient.None? {
        return false;
      }
      DestroyEntity(patient.value.name);
      ok := true;
    }

    /** Cascade over each of `surgeries` in turn. */
    method CascadeEach(surgeries: seq<Name>)
      requires Valid()
      modifies this
      ensures Valid() && onto == CascadeAll(old(onto), surgeries)
    {
      ghost var o0 := onto;
      var i := 0;
      while i < |surgeries|
        invariant 0 <= i <= |surgeries|
        invariant Valid() && onto == CascadeAll(o0, surgeries[..i])
      {
        ghost var next := surgeries[..i + 1];
        assert next[..|next| - 1] == surgeries[..i] && next[|next| - 1] == surgeries[i];
        DestroyWithPatients(surgeries[i]);
        assert onto == CascadeAll(o0, next);
        i := i + 1;
      }
      assert surgeries[..i] == surgeries;
    }

    method DeleteScheduleBySurgeon(surgeonName: Name) returns (ok: bool)
      requires Valid()
      modifies this
      ensures Valid()
      ensures ok <==> surgeonName in Names(old(onto))
      ensures ok ==> onto == CascadeAll(old(onto), Deref(old(onto), surgeonName).performsOperation)
      ensures !ok ==> onto == old(onto)
    {
      var surgeon := SearchOne(onto, surgeonName);
      if surgeon.None? {
        return false;
      }
      var surgeries := surgeon.value.performsOperation;
      if surgeries == [] {
        return true;
      }
      CascadeEach(surgeries);
      ok := true;
    }

    method DeleteScheduleByTimeslot(timeslotName: Name) returns (ok: bool)
      requires Valid()
      modifies this
      ensures Valid()
      ensures ok <==> timeslotName in Names(old(onto))
      ensures ok ==> onto == CascadeAll(old(onto), SurgeriesInSlot(old(onto), timeslotName))
      ensures !ok ==> onto == old(onto)
    {
      var timeslot := SearchOne(onto, timeslotName);
      if timeslot.None? {
        return false;
      }
      var surgeries := SurgeriesInSlot(onto, timeslot.value.name);
      if surgeries == [] {
        return true;
      }
      CascadeEach(surgeries);
      ok := true;
    }

    method DeleteAllSchedules() returns (ok: bool)
      requires Valid()
      modifies this
      ensures Valid() && ok
      ensures onto == Destroy(old(onto), ScheduleNames(old(onto)))
      ensures Instances(onto, Surgery) == [] && Instances(onto, Patient) == []
    {
      ghost var o0 := onto;
      DeleteAllEffect(o0);
      var surgeries := NameList(Instances(onto, Surgery));
      var patients := NameList(Instances(onto, Patient));
      DestroyNothing(o0);
      if surgeries == [] && patients == [] {
        assert ScheduleNames(o0) == {};
        return true;
      }
      DestroyAll(patients);
      DestroyAll(surgeries);
      DestroyTwice(o0, Elems(patients), Elems(surgeries));
      assert Elems(patients) + Elems(surgeries) == ScheduleNames(o0);
      ok := true;
    }
  }

  // ---------------------------------------------------------------- lemmas

  /** The positions are those, and only those, of the entries that pass, strictly increasing. */
  lemma {:induction false} PositionsSpec<T>(xs: seq<T>, keep: T -> bool)
    ensures forall k | 0 <= k < |Positions(xs, keep)| ::
      Positions(xs, keep)[k] < |xs| && keep(xs[Positions(xs, keep)[k]])
    ensures forall k, m | 0 <= k < m < |Positions(xs, keep)| :: Positions(xs, keep)[k] < Positions(xs, keep)[m]
    ensures forall p | 0 <= p < |xs| && keep(xs[p]) :: p in Positions(xs, keep)
    decreases |xs|
  {
    if xs != [] {
      var n := |xs|;
      var prefix := xs[..n - 1];
      PositionsSpec(prefix, keep);
      assert forall p | 0 <= p < n - 1 :: prefix[p] == xs[p];
    }
  }

  lemma DerefLinksWithin(o: Ontology, name: Name)
    requires WellFormed(o)
    ensures LinksWithin(Deref(o, name), Names(o))
  {
  }

  /** The patient found is the first in the list who undergoes the surgery. */
  lemma {:induction false} FirstPatientIsFirst(patients: Ontology, surgery: Name)
    ensures FirstPatient(patients, surgery).Some? ==>
      exists i | 0 <= i < |patients| ::
        && patients[i] == FirstPatient(patients, surgery).value
        && forall j | 0 <= j < i :: surgery !in patients[j].undergoesSurgery
  {
    if patients == [] {
    } else if surgery in patients[0].undergoesSurgery {
      assert patients[0] == FirstPatient(patients, surgery).value;
    } else {
      var rest := patients[1..];
      FirstPatientIsFirst(rest, surgery);
      assert FirstPatient(patients, surgery) == FirstPatient(rest, surgery);
      if FirstPatient(rest, surgery).Some? {
        var i :| 0 <= i < |rest| && rest[i] == FirstPatient(rest, surgery).value
                 && forall j | 0 <= j < i :: surgery !in rest[j].undergoesSurgery;
        assert patients[i + 1] == rest[i];
        forall j | 0 <= j < i + 1
          ensures surgery !in patients[j].undergoesSurgery
        {
          if j > 0 {
            assert patients[j] == rest[j - 1];
          }
        }
      }
    }
  }

  // ------------------------------------------------------------ schedules

  /** Every row of a schedule is the row of a listed surgery that has a timeslot; there are no more rows than surgeries. */
  lemma {:induction false} SurgeonRowsSound(o: Ontology, surgeries: seq<Name>)
    ensures |SurgeonRows(o, surgeries)| <= |surgeries|
    ensures forall b | b in SurgeonRows(o, surgeries) ::
      b.surgery in surgeries && Deref(o, b.surgery).hasTimeslot != [] && b == SurgeonRow(o, Deref(o, b.surgery))
    decreases |surgeries|
  {
    if surgeries != [] {
      var n := |surgeries|;
      var prefix := surgeries[..n - 1];
      SurgeonRowsSound(o, prefix);
      assert forall s | s in prefix :: s in surgeries;
      var last := Deref(o, surgeries[n - 1]);
      var rows := SurgeonRows(o, prefix);
      var all := SurgeonRows(o, surgeries);
      assert all == if last.hasTimeslot != [] then rows + [SurgeonRow(o, last)] else rows;
      forall b | b in all
        ensures b.surgery in surgeries && Deref(o, b.surgery).hasTimeslot != [] && b == SurgeonRow(o, Deref(o, b.surgery))
      {
        if b !in rows {
          assert b == SurgeonRow(o, last) && b.surgery == surgeries[n - 1];
        }
      }
    }
  }

  /** Every listed surgery that has a timeslot has its row in the schedule. */
  lemma {:induction false} SurgeonRowsComplete(o: Ontology, surgeries: seq<Name>)
    ensures forall s | s in surgeries && Deref(o, s).hasTimeslot != [] ::
      SurgeonRow(o, Deref(o, s)) in SurgeonRows(o, surgeries)
    decreases |surgeries|
  {
    if surgeries != [] {
      var n := |surgeries|;
      var prefix := surgeries[..n - 1];
      SurgeonRowsComplete(o, prefix);
      assert surgeries == prefix + [surgeries[n - 1]];
      var last := Deref(o, surgeries[n - 1]);
      var rows := SurgeonRows(o, prefix);
      var all := SurgeonRows(o, surgeries);
      assert all == if last.hasTimeslot != [] then rows + [SurgeonRow(o, last)] else rows;
      forall s | s in surgeries && Deref(o, s).hasTimeslot != []
        ensures SurgeonRow(o, Deref(o, s)) in all
      {
        if s !in prefix {
          assert s == surgeries[n - 1];
        }
      }
    }
  }

  /** One more listed surgery adds its row exactly when it has a timeslot. */
  lemma SurgeonRowsSnoc(o: Ontology, surgeries: seq<Name>, i: nat)
    requires i < |surgeries|
    ensures SurgeonRows(o, surgeries[..i + 1]) ==
      if Deref(o, surgeries[i]).hasTimeslot != [] then SurgeonRows(o, surgeries[..i]) + [SurgeonRow(o, Deref(o, surgeries[i]))]
      else SurgeonRows(o, surgeries[..i])
  {
    assert surgeries[..i + 1][..i] == surgeries[..i];
  }

  /** A surgeon's schedule has one row per listed surgery that has a timeslot. */
  lemma {:induction false} SurgeonRowsCount(o: Ontology, surgeries: seq<Name>)
    ensures |SurgeonRows(o, surgeries)| == |Positions(surgeries, Slotted(o))|
    decreases |surgeries|
  {
    if surgeries != [] {
      SurgeonRowsCount(o, surgeries[..|surgeries| - 1]);
    }
  }

  /** Row `k` of a surgeon's schedule is that of the surgery at the `k`-th position with a timeslot. */
  lemma {:induction false} SurgeonRowAt(o: Ontology, surgeries: seq<Name>, k: nat)
    requires k < |Positions(surgeries, Slotted(o))|
    ensures var p := Positions(surgeries, Slotted(o))[k];
      p < |surgeries| && Deref(o, surgeries[p]).hasTimeslot != []
      && k < |SurgeonRows(o, surgeries)| && SurgeonRows(o, surgeries)[k] == SurgeonRow(o, Deref(o, surgeries[p]))
    decreases |surgeries|
  {
    var n := |surgeries|;
    var prefix := surgeries[..n - 1];
    SurgeonRowsCount(o, prefix);
    if k < |Positions(prefix, Slotted(o))| {
      SurgeonRowAt(o, prefix, k);
      var p := Positions(prefix, Slotted(o))[k];
      assert surgeries[p] == prefix[p];
    }
  }

  /**
   * The rows follow the list: one row for each position whose surgery has a
   * timeslot, in increasing order of position, and no other row.
   */
  lemma {:induction false} SurgeonRowsInOrder(o: Ontology, surgeries: seq<Name>)
    ensures |SurgeonRows(o, surgeries)| == |Positions(surgeries, Slotted(o))|
    ensures forall k | 0 <= k < |Positions(surgeries, Slotted(o))| ::
      var p := Positions(surgeries, Slotted(o))[k];
      p < |surgeries| && Deref(o, surgeries[p]).hasTimeslot != []
      && SurgeonRows(o, surgeries)[k] == SurgeonRow(o, Deref(o, surgeries[p]))
  {
    SurgeonRowsCount(o, surgeries);
    forall k | 0 <= k < |Positions(surgeries, Slotted(o))|
      ensures var p := Positions(surgeries, Slotted(o))[k];
        p < |surgeries| && Deref(o, surgeries[p]).hasTimeslot != []
        && SurgeonRows(o, surgeries)[k] == SurgeonRow(o, Deref(o, surgeries[p]))
    {
      SurgeonRowAt(o, surgeries, k);
    }
  }

  /**
   * A surgeon's schedule: empty for an unknown name; otherwise one row for
   * each surgery the surgeon performs that has a timeslot, showing that slot's
   * times and the surgery's theatre (or the sentinel where one is missing).
   */
  lemma SurgeonScheduleContents(o: Ontology, name: Name)
    ensures name !in Names(o) ==> SurgeonSchedule(o, name) == []
    ensures name in Names(o) ==> forall b | b in SurgeonSchedule(o, name) ::
      b.surgery in Deref(o, name).performsOperation && Deref(o, b.surgery).hasTimeslot != []
      && b.startTime == FirstOr(Deref(o, Deref(o, b.surgery).hasTimeslot[0]).startTime)
      && b.endTime == FirstOr(Deref(o, Deref(o, b.surgery).hasTimeslot[0]).endTime)
      && b.theatre == FirstOr(Deref(o, b.surgery).requiresTheatreType)
    ensures name in Names(o) ==> forall s | s in Deref(o, name).performsOperation && Deref(o, s).hasTimeslot != [] ::
      SurgeonRow(o, Deref(o, s)) in SurgeonSchedule(o, name)
  {
    if name in Names(o) {
      SurgeonRowsSound(o, Deref(o, name).performsOperation);
      SurgeonRowsComplete(o, Deref(o, name).performsOperation);
    }
  }

  /**
   * A known surgeon's schedule lists the rows in the order of the surgeon's
   * surgeries, once per listed occurrence: row `k` belongs to the `k`-th
   * position, counting only surgeries with a timeslot.
   */
  lemma SurgeonScheduleInOrder(o: Ontology, name: Name)
    ensures name in Names(o) ==>
      var ops := Deref(o, name).performsOperation;
      var idx := Positions(ops, Slotted(o));
      var rows := SurgeonSchedule(o, name);
      && |rows| == |idx|
      && (forall k, m | 0 <= k < m < |idx| :: idx[k] < idx[m])
      && (forall p | 0 <= p < |ops| && Deref(o, ops[p]).hasTimeslot != [] :: p in idx)
      && (forall k | 0 <= k < |idx| ::
            idx[k] < |ops| && Deref(o, ops[idx[k]]).hasTimeslot != []
            && rows[k] == SurgeonRow(o, Deref(o, ops[idx[k]])))
  {
    if name in Names(o) {
      var ops := Deref(o, name).performsOperation;
      SurgeonRowsInOrder(o, ops);
      PositionsSpec(ops, Slotted(o));
    }
  }

  /** A theatre's rows are exactly those of the surgeries booked into it. */
  lemma {:induction false} TheatreRowsExact(o: Ontology, surgeries: Ontology, theatre: Name)
    ensures |TheatreRows(o, surgeries, theatre)| <= |surgeries|
    ensures forall b | b in TheatreRows(o, surgeries, theatre) ::
      exists x :: x in surgeries && BookedInto(x, theatre) && b == TheatreRow(o, x)
    ensures forall x | x in surgeries && BookedInto(x, theatre) :: TheatreRow(o, x) in TheatreRows(o, surgeries, theatre)
    decreases |surgeries|
  {
    if surgeries != [] {
      var n := |surgeries|;
      TheatreRowsExact(o, surgeries[..n - 1], theatre);
      assert surgeries == surgeries[..n - 1] + [surgeries[n - 1]];
      forall b | b in TheatreRows(o, surgeries, theatre)
        ensures exists x :: x in surgeries && BookedInto(x, theatre) && b == TheatreRow(o, x)
      {
        if b in TheatreRows(o, surgeries[..n - 1], theatre) {
          var x :| x in surgeries[..n - 1] && BookedInto(x, theatre) && b == TheatreRow(o, x);
          assert x in surgeries;
        }
      }
    }
  }

  /** One more surgery adds its row exactly when it is booked into the theatre. */
  lemma TheatreRowsSnoc(o: Ontology, surgeries: Ontology, theatre: Name, i: nat)
    requires i < |surgeries|
    ensures TheatreRows(o, surgeries[..i + 1], theatre) ==
      if BookedInto(surgeries[i], theatre) then TheatreRows(o, surgeries[..i], theatre) + [TheatreRow(o, surgeries[i])]
      else TheatreRows(o, surgeries[..i], theatre)
  {
    assert surgeries[..i + 1][..i] == surgeries[..i];
  }

  /** A theatre's schedule has one row per surgery booked into it. */
  lemma {:induction false} TheatreRowsCount(o: Ontology, surgeries: Ontology, theatre: Name)
    ensures |TheatreRows(o, surgeries, theatre)| == |Positions(surgeries, BookedTest(theatre))|
    decreases |surgeries|
  {
    if surgeries != [] {
      TheatreRowsCount(o, surgeries[..|surgeries| - 1], theatre);
    }
  }

  /** Row `k` of a theatre's schedule is that of the `k`-th surgery booked into it. */
  lemma {:induction false} TheatreRowAt(o: Ontology, surgeries: Ontology, theatre: Name, k: nat)
    requires k < |Positions(surgeries, BookedTest(theatre))|
    ensures var p := Positions(surgeries, BookedTest(theatre))[k];
      p < |surgeries| && BookedInto(surgeries[p], theatre)
      && k < |TheatreRows(o, surgeries, theatre)| && TheatreRows(o, surgeries, theatre)[k] == TheatreRow(o, surgeries[p])
    decreases |surgeries|
  {
    var n := |surgeries|;
    var prefix := surgeries[..n - 1];
    TheatreRowsCount(o, prefix, theatre);
    if k < |Positions(prefix, BookedTest(theatre))| {
      TheatreRowAt(o, prefix, theatre, k);
      var p := Positions(prefix, BookedTest(theatre))[k];
      assert surgeries[p] == prefix[p];
    }
  }

  /**
   * The rows follow the surgeries in the order given: one row for each
   * position whose surgery is booked into the theatre, in increasing order of
   * position, and no other row.
   */
  lemma {:induction false} TheatreRowsInOrder(o: Ontology, surgeries: Ontology, theatre: Name)
    ensures |TheatreRows(o, surgeries, theatre)| == |Positions(surgeries, BookedTest(theatre))|
    ensures forall k | 0 <= k < |Positions(surgeries, BookedTest(theatre))| ::
      var p := Positions(surgeries, BookedTest(theatre))[k];
      p < |surgeries| && BookedInto(surgeries[p], theatre)
      && TheatreRows(o, surgeries, theatre)[k] == TheatreRow(o, surgeries[p])
  {
    TheatreRowsCount(o, surgeries, theatre);
    forall k | 0 <= k < |Positions(surgeries, BookedTest(theatre))|
      ensures var p := Positions(surgeries, BookedTest(theatre))[k];
        p < |surgeries| && BookedInto(surgeries[p], theatre)
        && TheatreRows(o, surgeries, theatre)[k] == TheatreRow(o, surgeries[p])
    {
      TheatreRowAt(o, surgeries, theatre, k);
    }
  }

  /**
   * A theatre's schedule: empty for an unknown name; otherwise one row for each
   * surgery whose first required theatre is that one and which has a timeslot.
   */
  lemma TheatreScheduleContents(o: Ontology, name: Name)
    ensures name !in Names(o) ==> TheatreSchedule(o, name) == []
    ensures forall b | b in TheatreSchedule(o, name) ::
      exists x :: x in o && Surgery in x.classes && BookedInto(x, name) && b == TheatreRow(o, x)
    ensures name in Names(o) ==> forall x | x in o && Surgery in x.classes && BookedInto(x, name) ::
      TheatreRow(o, x) in TheatreSchedule(o, name)
  {
    if name in Names(o) {
      var surgeries := Instances(o, Surgery);
      TheatreRowsExact(o, surgeries, name);
      forall b | b in TheatreSchedule(o, name)
        ensures exists x :: x in o && Surgery in x.classes && BookedInto(x, name) && b == TheatreRow(o, x)
      {
        var x :| x in surgeries && BookedInto(x, name) && b == TheatreRow(o, x);
        assert x in o && Surgery in x.classes;
      }
    }
  }

  /**
   * A known theatre's schedule lists the rows in the order the store
   * enumerates the surgeries, once per surgery: row `k` belongs to the `k`-th
   * surgery booked into the theatre.
   */
  lemma TheatreScheduleInOrder(o: Ontology, name: Name)
    ensures name in Names(o) ==>
      var surgeries := Instances(o, Surgery);
      var idx := Positions(surgeries, BookedTest(name));
      var rows := TheatreSchedule(o, name);
      && |rows| == |idx|
      && (forall k, m | 0 <= k < m < |idx| :: idx[k] < idx[m])
      && (forall p | 0 <= p < |surgeries| && BookedInto(surgeries[p], name) :: p in idx)
      && (forall k | 0 <= k < |idx| ::
            idx[k] < |surgeries| && BookedInto(surgeries[idx[k]], name)
            && rows[k] == TheatreRow(o, surgeries[idx[k]]))
  {
    if name in Names(o) {
      var surgeries := Instances(o, Surgery);
      TheatreRowsInOrder(o, surgeries, name);
      PositionsSpec(surgeries, BookedTest(name));
    }
  }

  /**
   * The details of a surgery: None exactly for an unknown name; otherwise the
   * patient shown undergoes the surgery (the sentinel when nobody does), and
   * the times and duration are missing exactly when the surgery lacks them.
   */
  lemma ScheduleInfoContents(o: Ontology, name: Name)
    ensures ScheduleInfoOf(o, name).None? <==> name !in Names(o)
    ensures ScheduleInfoOf(o, name).Some? ==>
      var info := ScheduleInfoOf(o, name).value;
      var surgery := Deref(o, name);
      && info.surgeryName == name
      && (UndergoingAny(o, {name}) == {} ==> info.patientName == NotAvailable)
      && (UndergoingAny(o, {name}) != {} ==> info.patientName in UndergoingAny(o, {name}))
      && (info.duration.Some? <==> surgery.estimatedDuration != [])
      && (info.duration.Some? ==> info.duration.value == surgery.estimatedDuration[0])
      && (surgery.hasTimeslot == [] ==> info.timeslot == NotAvailable && info.startTime == NotAvailable
                                        && info.endTime == NotAvailable)
      && (surgery.hasTimeslot != [] ==>
            var slot := Deref(o, surgery.hasTimeslot[0]);
            info.timeslot == slot.name && info.startTime == FirstOr(slot.startTime) && info.endTime == FirstOr(slot.endTime))
      && info.surgeon == FirstOr(surgery.performsOperation)
      && info.theatre == FirstOr(surgery.requiresTheatreType)
      && info.isEmergency == (surgery.isEmergency != [] && surgery.isEmergency[0])
    // the patient columns come from the first patient, in store order, who undergoes the surgery, or are all "N/A"
    ensures ScheduleInfoOf(o, name).Some? ==>
      var info := ScheduleInfoOf(o, name).value;
      var patient := FirstPatient(Instances(o, Patient), name);
      && (patient.Some? ==>
            && info.patientName == patient.value.name
            && info.patientWard == FirstOr(patient.value.admittedTo)
            && info.recoveryRoom == FirstOr(patient.value.assignedToRecovery))
      && (patient.None? ==>
            info.patientName == NotAvailable && info.patientWard == NotAvailable && info.recoveryRoom == NotAvailable)
  {
    if name in Names(o) {
      var patients := Instances(o, Patient);
      match FirstPatient(patients, name)
      case None =>
        forall x | x in o && Patient in x.classes
          ensures Elems(x.undergoesSurgery) * {name} == {}
        {
          assert x in patients;
          MeetsOne(x.undergoesSurgery, name);
        }
      case Some(p) =>
        MeetsOne(p.undergoesSurgery, name);
        assert p.name in UndergoingAny(o, {name});
    }
  }

  // ------------------------------------------------------------- creation

  /**
   * Adding a surgeon: the name now leads to a surgeon with that licence,
   * working in the theatre when that name resolves, keeping whatever else an
   * individual of that name already had; every other name is untouched.
   */
  lemma AddSurgeonEffect(o: Ontology, name: Name, licenseNumber: string, theatreName: Name)
    ensures Names(AddedSurgeon(o, name, licenseNumber, theatreName)) == Names(o) + {name}
    ensures var x := Deref(AddedSurgeon(o, name, licenseNumber, theatreName), name);
      && x.classes == Deref(o, name).classes + {Surgeon}
      && x.licenseNumber == [licenseNumber]
      && (theatreName in Names(o) + {name} ==> x.worksInTheatre == [theatreName])
      && (theatreName !in Names(o) + {name} ==> x.worksInTheatre == Deref(o, name).worksInTheatre)
      && x.performsOperation == Deref(o, name).performsOperation
    ensures forall n | n != name :: Deref(AddedSurgeon(o, name, licenseNumber, theatreName), n) == Deref(o, n)
  {
    var o1 := Declare(o, Surgeon, name);
    var x := Deref(o, name);
    PutFinds(o, x.(classes := x.classes + {Surgeon}));
    var y := Deref(o1, name);
    PutFinds(o1, y.(licenseNumber := [licenseNumber],
                    worksInTheatre := if theatreName in Names(o1) then [theatreName] else y.worksInTheatre));
    forall n | n != name
      ensures Deref(AddedSurgeon(o, name, licenseNumber, theatreName), n) == Deref(o, n)
    {
      PutKeeps(o, x.(classes := x.classes + {Surgeon}), n);
      PutKeeps(o1, y.(licenseNumber := [licenseNumber],
                      worksInTheatre := if theatreName in Names(o1) then [theatreName] else y.worksInTheatre), n);
    }
  }

  /**
   * Adding a surgery: the name now leads to a surgery with the given duration
   * and emergency flag, linked to the surgeon, theatre and timeslot whose
   * names resolve; every other name is untouched.
   */
  lemma AddSurgeryEffect(o: Ontology, name: Name, surgeonName: Name, theatreName: Name,
                         timeslotName: Name, duration: int, isEmergency: bool)
    ensures Names(AddedSurgery(o, name, surgeonName, theatreName, timeslotName, duration, isEmergency)) == Names(o) + {name}
    ensures var x := Deref(AddedSurgery(o, name, surgeonName, theatreName, timeslotName, duration, isEmergency), name);
      && x.classes == Deref(o, name).classes + {Surgery}
      && x.estimatedDuration == [duration] && x.isEmergency == [isEmergency]
      && (surgeonName in Names(o) + {name} ==> x.performsOperation == [surgeonName])
      && (surgeonName !in Names(o) + {name} ==> x.performsOperation == Deref(o, name).performsOperation)
      && (theatreName in Names(o) + {name} ==> x.requiresTheatreType == [theatreName])
      && (theatreName !in Names(o) + {name} ==> x.requiresTheatreType == Deref(o, name).requiresTheatreType)
      && (timeslotName in Names(o) + {name} ==> x.hasTimeslot == [timeslotName])
      && (timeslotName !in Names(o) + {name} ==> x.hasTimeslot == Deref(o, name).hasTimeslot)
    ensures forall n | n != name ::
      Deref(AddedSurgery(o, name, surgeonName, theatreName, timeslotName, duration, isEmergency), n) == Deref(o, n)
  {
    var o1 := Declare(o, Surgery, name);
    var x := Deref(o, name);
    PutFinds(o, x.(classes := x.classes + {Surgery}));
    var y := Deref(o1, name);
    var z := y.(estimatedDuration := [duration],
                isEmergency := [isEmergency],
                performsOperation := if surgeonName in Names(o1) then [surgeonName] else y.performsOperation,
                requiresTheatreType := if theatreName in Names(o1) then [theatreName] else y.requiresTheatreType,
                hasTimeslot := if timeslotName in Names(o1) then [timeslotName] else y.hasTimeslot);
    PutFinds(o1, z);
    forall n | n != name
      ensures Deref(AddedSurgery(o, name, surgeonName, theatreName, timeslotName, duration, isEmergency), n) == Deref(o, n)
    {
      PutKeeps(o, x.(classes := x.classes + {Surgery}), n);
      PutKeeps(o1, z, n);
    }
  }

  /** Adding a timeslot: the name now leads to a timeslot with those times; every other name is untouched. */
  lemma AddTimeslotEffect(o: Ontology, name: Name, start: string, end: string, duration: int)
    ensures Names(AddedTimeslot(o, name, start, end, duration)) == Names(o) + {name}
    ensures var x := Deref(AddedTimeslot(o, name, start, end, duration), name);
      && x.classes == Deref(o, name).classes + {TimeSlot}
      && x.startTime == [start] && x.endTime == [end] && x.duration == [duration]
      && x.hasTemporalOverlap == Deref(o, name).hasTemporalOverlap
    ensures forall n | n != name :: Deref(AddedTimeslot(o, name, start, end, duration), n) == Deref(o, n)
  {
    var o1 := Declare(o, TimeSlot, name);
    var x := Deref(o, name);
    PutFinds(o, x.(classes := x.classes + {TimeSlot}));
    var y := Deref(o1, name);
    PutFinds(o1, y.(startTime := [start], endTime := [end], duration := [duration]));
    forall n | n != name
      ensures Deref(AddedTimeslot(o, name, start, end, duration), n) == Deref(o, n)
    {
      PutKeeps(o, x.(classes := x.classes + {TimeSlot}), n);
      PutKeeps(o1, y.(startTime := [start], endTime := [end], duration := [duration]), n);
    }
  }

  /** Adding the same timeslot twice leaves the store as adding it once. */
  lemma AddTimeslotIdempotent(o: Ontology, name: Name, start: string, end: string, duration: int)
    ensures AddedTimeslot(AddedTimeslot(o, name, start, end, duration), name, start, end, duration)
         == AddedTimeslot(o, name, start, end, duration)
  {
    var o1 := AddedTimeslot(o, name, start, end, duration);
    AddTimeslotEffect(o, name, start, end, duration);
    var y := Deref(o1, name);
    assert y.(classes := y.classes + {TimeSlot}) == y;
    PutSame(o1, name);
    assert Declare(o1, TimeSlot, name) == o1;
    assert y.(startTime := [start], endTime := [end], duration := [duration]) == y;
  }

  /** Adding the same surgery twice leaves the store as adding it once. */
  lemma AddSurgeryIdempotent(o: Ontology, name: Name, surgeonName: Name, theatreName: Name,
                             timeslotName: Name, duration: int, isEmergency: bool)
    ensures AddedSurgery(AddedSurgery(o, name, surgeonName, theatreName, timeslotName, duration, isEmergency),
                         name, surgeonName, theatreName, timeslotName, duration, isEmergency)
         == AddedSurgery(o, name, surgeonName, theatreName, timeslotName, duration, isEmergency)
  {
    var o1 := AddedSurgery(o, name, surgeonName, theatreName, timeslotName, duration, isEmergency);
    AddSurgeryEffect(o, name, surgeonName, theatreName, timeslotName, duration, isEmergency);
    var y := Deref(o1, name);
    assert y.(classes := y.classes + {Surgery}) == y;
    PutSame(o1, name);
    assert Declare(o1, Surgery, name) == o1;
    assert Names(o1) == Names(o) + {name};
    assert y.(estimatedDuration := [duration],
              isEmergency := [isEmergency],
              performsOperation := if surgeonName in Names(o1) then [surgeonName] else y.performsOperation,
              requiresTheatreType := if theatreName in Names(o1) then [theatreName] else y.requiresTheatreType,
              hasTimeslot := if timeslotName in Names(o1) then [timeslotName] else y.hasTimeslot) == y;
  }

  // ------------------------------------------------------------- deletion

  /**
   * Deleting a surgery removes exactly it and its patients; every other
   * individual stays, with its links to them dropped, so nothing left points
   * at the surgery.
   */
  lemma DeleteSurgeryEffect(o: Ontology, surgery: Name)
    ensures Names(Cascade(o, surgery)) == Names(o) - (UndergoingAny(o, {surgery}) + {surgery})
    ensures forall x | x in o && x.name != surgery && x.name !in UndergoingAny(o, {surgery}) ::
      Scrub(x, UndergoingAny(o, {surgery}) + {surgery}) in Cascade(o, surgery)
    ensures forall y | y in Cascade(o, surgery) ::
      surgery !in y.performsOperation && surgery !in y.undergoesSurgery
  {
    var doomed := UndergoingAny(o, {surgery}) + {surgery};
    DestroyNames(o, doomed);
    forall x | x in o && x.name != surgery && x.name !in UndergoingAny(o, {surgery})
      ensures Scrub(x, doomed) in Cascade(o, surgery)
    {
      DestroyKeeps(o, doomed, x);
    }
    forall y | y in Cascade(o, surgery)
      ensures surgery !in y.performsOperation && surgery !in y.undergoesSurgery
    {
      DestroyOnly(o, doomed, y);
    }
  }

  /**
   * Deleting a surgeon's schedule, when no surgery the surgeon performs is
   * itself a patient, removes exactly those surgeries and the patients
   * undergoing any of them.
   */
  lemma DeleteBySurgeonEffect(o: Ontology, surgeon: Name)
    requires UniqueNames(o)
    requires forall s | s in Deref(o, surgeon).performsOperation :: Patient !in Deref(o, s).classes
    ensures var surgeries := Elems(Deref(o, surgeon).performsOperation);
      && CascadeAll(o, Deref(o, surgeon).performsOperation) == Destroy(o, surgeries + UndergoingAny(o, surgeries))
      && Names(CascadeAll(o, Deref(o, surgeon).performsOperation)) == Names(o) - (surgeries + UndergoingAny(o, surgeries))
  {
    var ss := Deref(o, surgeon).performsOperation;
    NoPatientListed(o, ss);
    CascadeAllIsDestroy(o, ss);
    DestroyNames(o, Elems(ss) + UndergoingAny(o, Elems(ss)));
  }

  /**
   * Deleting a timeslot's schedule, in a store where no individual is both a
   * surgery and a patient, removes exactly the surgeries booked into that slot
   * and the patients undergoing any of them.
   */
  lemma DeleteByTimeslotEffect(o: Ontology, slot: Name)
    requires UniqueNames(o)
    requires forall x | x in o :: Surgery !in x.classes || Patient !in x.classes
    ensures var surgeries := Elems(SurgeriesInSlot(o, slot));
      && CascadeAll(o, SurgeriesInSlot(o, slot)) == Destroy(o, surgeries + UndergoingAny(o, surgeries))
      && Names(CascadeAll(o, SurgeriesInSlot(o, slot))) == Names(o) - (surgeries + UndergoingAny(o, surgeries))
  {
    var ss := SurgeriesInSlot(o, slot);
    forall s | s in ss
      ensures Patient !in Deref(o, s).classes
    {
      var x :| x in o && Surgery in x.classes && InSlot(x, slot) && x.name == s;
      DerefUnique(o, x);
    }
    NoPatientListed(o, ss);
    CascadeAllIsDestroy(o, ss);
    DestroyNames(o, Elems(ss) + UndergoingAny(o, Elems(ss)));
  }

  /** A name in the schedule names belongs to a surgery or a patient of the store. */
  lemma ScheduleNamesAre(o: Ontology, n: Name)
    requires n in ScheduleNames(o)
    ensures exists x :: x in o && (Surgery in x.classes || Patient in x.classes) && x.name == n
  {
    var ps := Instances(o, Patient);
    var ss := Instances(o, Surgery);
    if n in NameList(ps) {
      var k :| 0 <= k < |ps| && NameList(ps)[k] == n;
      assert ps[k] in ps;
    } else {
      var k :| 0 <= k < |ss| && NameList(ss)[k] == n;
      assert ss[k] in ss;
    }
  }

  /** Every surgery and every patient of the store is among the schedule names. */
  lemma InScheduleNames(o: Ontology, x: Individual)
    requires x in o
    ensures Surgery in x.classes || Patient in x.classes ==> x.name in ScheduleNames(o)
  {
    if Surgery in x.classes {
      var ss := Instances(o, Surgery);
      var k :| 0 <= k < |ss| && ss[k] == x;
      assert NameList(ss)[k] == x.name;
    } else if Patient in x.classes {
      var ps := Instances(o, Patient);
      var k :| 0 <= k < |ps| && ps[k] == x;
      assert NameList(ps)[k] == x.name;
    }
  }

  /**
   * Deleting all schedules leaves no surgery and no patient, and every other
   * individual stays, with its links to them dropped.
   */
  lemma DeleteAllEffect(o: Ontology)
    requires UniqueNames(o)
    ensures Instances(Destroy(o, ScheduleNames(o)), Surgery) == []
    ensures Instances(Destroy(o, ScheduleNames(o)), Patient) == []
    ensures forall x | x in o && Surgery !in x.classes && Patient !in x.classes ::
      Scrub(x, ScheduleNames(o)) in Destroy(o, ScheduleNames(o))
  {
    var d := ScheduleNames(o);
    var r := Destroy(o, d);
    forall y | y in r
      ensures Surgery !in y.classes && Patient !in y.classes
    {
      DestroyOnly(o, d, y);
      var x :| x in o && x.name !in d && y == Scrub(x, d);
      InScheduleNames(o, x);
    }
    NoInstances(r, Surgery);
    NoInstances(r, Patient);
    forall x | x in o && Surgery !in x.classes && Patient !in x.classes
      ensures Scrub(x, d) in r
    {
      if x.name in d {
        ScheduleNamesAre(o, x.name);
        var z :| z in o && (Surgery in z.classes || Patient in z.classes) && z.name == x.name;
        DerefUnique(o, x);
        DerefUnique(o, z);
        assert false;
      }
      DestroyKeeps(o, d, x);
    }
  }
}
