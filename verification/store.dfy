/**
 * The knowledge store the scheduling core reads and changes: a list of
 * individuals (the OWL individuals of the hospital ontology), each with the
 * classes it belongs to and the property values it holds.
 *
 * Every property is an ordered, possibly empty list, as the store exposes it
 * (a missing value is the empty list, the first value is `[0]`). An object
 * property holds the NAMES of the individuals it points at; a name is an
 * individual's identity.
 */
module Store {
  import opened Wrappers

  type Name = string

  /** The ontology classes whose instances the core asks for. */
  datatype OwlClass = Surgeon | Theatre | Surgery | Patient | TimeSlot

  datatype Individual = Individual(
    name: Name,
    classes: set<OwlClass>,
    // data properties
    licenseNumber: seq<string>,
    estimatedDuration: seq<int>,
    isEmergency: seq<bool>,
    startTime: seq<string>,
    endTime: seq<string>,
    duration: seq<int>,
    // object properties
    worksInTheatre: seq<Name>,
    performsOperation: seq<Name>,
    requiresTheatreType: seq<Name>,
    hasTimeslot: seq<Name>,
    hasTemporalOverlap: seq<Name>,
    undergoesSurgery: seq<Name>,
    admittedTo: seq<Name>,
    assignedToRecovery: seq<Name>)

  /** The individuals in the order the store enumerates them. */
  type Ontology = seq<Individual>

  /** A fresh individual: no class, no property value. */
  function Blank(name: Name): Individual {
    Individual(name, {}, [], [], [], [], [], [], [], [], [], [], [], [], [], [])
  }

  function Elems(xs: seq<Name>): set<Name> { set x | x in xs }

  function Names(o: Ontology): set<Name> { set x | x in o :: x.name }

  /** Every name the individual's object properties point at lies in `names`. */
  predicate LinksWithin(x: Individual, names: set<Name>) {
    && (forall n | n in x.worksInTheatre :: n in names)
    && (forall n | n in x.performsOperation :: n in names)
    && (forall n | n in x.requiresTheatreType :: n in names)
    && (forall n | n in x.hasTimeslot :: n in names)
    && (forall n | n in x.hasTemporalOverlap :: n in names)
    && (forall n | n in x.undergoesSurgery :: n in names)
    && (forall n | n in x.admittedTo :: n in names)
    && (forall n | n in x.assignedToRecovery :: n in names)
  }

  /** No two individuals share a name. */
  predicate UniqueNames(o: Ontology) {
    o == [] || (o[0].name !in Names(o[1..]) && UniqueNames(o[1..]))
  }

  /** The store's own invariant: names identify individuals and every link points at one. */
  predicate WellFormed(o: Ontology) {
    UniqueNames(o) && forall x | x in o :: LinksWithin(x, Names(o))
  }

  lemma NamesAppend(a: Ontology, b: Ontology)
    ensures Names(a + b) == Names(a) + Names(b)
  {
    assert forall x | x in a + b :: x in a || x in b;
  }

  lemma NamesCons(o: Ontology)
    requires o != []
    ensures Names(o) == {o[0].name} + Names(o[1..])
  {
    assert o == [o[0]] + o[1..];
    NamesAppend([o[0]], o[1..]);
  }

  // ---------------------------------------------------------------- lookup

  /** Position of the first individual called `name`, if any. */
  function Find(o: Ontology, name: Name): (r: Option<nat>)
    ensures r.Some? ==> r.value < |o| && o[r.value].name == name
    ensures r.Some? ==> forall k | 0 <= k < r.value :: o[k].name != name
    ensures r.None? <==> name !in Names(o)
  {
    if o == [] then None
    else
      NamesCons(o);
      if o[0].name == name then Some(0)
      else match Find(o[1..], name)
        case None => None
        case Some(i) => Some(i + 1)
  }

  /** The individual a name lookup finds, or None. */
  function SearchOne(o: Ontology, name: Name): (r: Option<Individual>)
    ensures r.Some? <==> name in Names(o)
    ensures r.Some? ==> r.value in o && r.value.name == name
  {
    match Find(o, name)
    case None => None
    case Some(i) => Some(o[i])
  }

  predicate EndsWith(s: string, suffix: string) {
    |suffix| <= |s| && s[|s| - |suffix|..] == suffix
  }

  /**
   * The lookup the manager's code performs, `search_one(iri="*" + query)`:
   * the first individual whose name ends with the query. The rest of the
   * model looks names up exactly, with SearchOne.
   */
  function SuffixSearch(o: Ontology, query: string): (r: Option<Individual>)
    ensures r.Some? ==> r.value in o && EndsWith(r.value.name, query)
    ensures r.None? <==> forall x | x in o :: !EndsWith(x.name, query)
  {
    if o == [] then None
    else if EndsWith(o[0].name, query) then Some(o[0])
    else SuffixSearch(o[1..], query)
  }

  /**
   * The individual a link points at. A link always names an existing
   * individual in a well-formed store; a dangling one reads as an individual
   * with no property values.
   */
  function Deref(o: Ontology, name: Name): (x: Individual)
    ensures x.name == name
    ensures name in Names(o) ==> x in o
    ensures name !in Names(o) ==> x == Blank(name)
  {
    match Find(o, name)
    case None => Blank(name)
    case Some(i) => o[i]
  }

  /** The members of class `c`, in store order. */
  function Instances(o: Ontology, c: OwlClass): (r: Ontology)
    ensures forall x :: x in r <==> x in o && c in x.classes
    ensures |r| <= |o|
  {
    if o == [] then []
    else (if c in o[0].classes then [o[0]] else []) + Instances(o[1..], c)
  }

  /** With unique names, a store holds one individual per name. */
  lemma {:induction false} UniqueNamesCount(o: Ontology)
    requires UniqueNames(o)
    ensures |Names(o)| == |o|
  {
    if o != [] {
      NamesCons(o);
      UniqueNamesCount(o[1..]);
    }
  }

  /** The instances of a class keep the names unique. */
  lemma {:induction false} InstancesUnique(o: Ontology, c: OwlClass)
    requires UniqueNames(o)
    ensures UniqueNames(Instances(o, c))
  {
    if o != [] {
      var rest := Instances(o[1..], c);
      InstancesUnique(o[1..], c);
      if c in o[0].classes {
        var r := [o[0]] + rest;
        assert Instances(o, c) == r && r[0] == o[0] && r[1..] == rest;
        assert o[0].name !in Names(rest) by {
          forall x | x in rest
            ensures x.name != o[0].name
          {
            assert x in o[1..];
          }
        }
      } else {
        assert Instances(o, c) == [] + rest == rest;
      }
    }
  }

  /** With unique names, a class has as many instances as names among its members. */
  lemma InstancesCount(o: Ontology, c: OwlClass)
    requires UniqueNames(o)
    ensures |Instances(o, c)| == |set x | x in o && c in x.classes :: x.name|
  {
    InstancesUnique(o, c);
    UniqueNamesCount(Instances(o, c));
    assert Names(Instances(o, c)) == set x | x in o && c in x.classes :: x.name;
  }

  /** With unique names, the store's size and each class's instance count are counts of names. */
  lemma UniqueCounts(o: Ontology)
    ensures UniqueNames(o) ==> |o| == |Names(o)|
    ensures UniqueNames(o) ==> forall c :: |Instances(o, c)| == |set x | x in o && c in x.classes :: x.name|
  {
    if UniqueNames(o) {
      UniqueNamesCount(o);
      forall c {
        InstancesCount(o, c);
      }
    }
  }

  /** A store with no member of class `c` has no instances of it. */
  lemma {:induction false} NoInstances(o: Ontology, c: OwlClass)
    requires forall x | x in o :: c !in x.classes
    ensures Instances(o, c) == []
  {
    if o != [] {
      assert o[0] in o;
      NoInstances(o[1..], c);
    }
  }

  /** The names of a list of individuals, in order. */
  function NameList(o: Ontology): (r: seq<Name>)
    ensures |r| == |o|
    ensures forall k | 0 <= k < |o| :: r[k] == o[k].name
  {
    if o == [] then [] else [o[0].name] + NameList(o[1..])
  }

  // ------------------------------------------------------------- creation

  /**
   * The store with `x` in place of the first individual of that name, or
   * with `x` appended when there is none: creating an individual under a name
   * that is taken reuses the existing one in place.
   */
  function Put(o: Ontology, x: Individual): (r: Ontology)
    ensures Names(r) == Names(o) + {x.name}
    ensures |r| == if x.name in Names(o) then |o| else |o| + 1
  {
    match Find(o, x.name)
    case Some(i) =>
      ReplaceKeepsNames(o, i, x);
      o[i := x]
    case None =>
      NamesAppend(o, [x]);
      o + [x]
  }

  /**
   * The store after asking for an individual of class `c` called `name`: the
   * existing individual gains the class, or a blank one of that class is added.
   */
  function Declare(o: Ontology, c: OwlClass, name: Name): Ontology {
    var x := Deref(o, name);
    Put(o, x.(classes := x.classes + {c}))
  }

  // ---------------------------------------------------------- destruction

  /** `xs` without the doomed names, order kept. */
  function Remove(xs: seq<Name>, doomed: set<Name>): (r: seq<Name>)
    ensures forall x :: x in r <==> x in xs && x !in doomed
    ensures |r| <= |xs|
  {
    if xs == [] then []
    else (if xs[0] in doomed then [] else [xs[0]]) + Remove(xs[1..], doomed)
  }

  /** An individual with every link to a doomed name dropped. */
  function Scrub(x: Individual, doomed: set<Name>): Individual {
    x.(worksInTheatre := Remove(x.worksInTheatre, doomed),
       performsOperation := Remove(x.performsOperation, doomed),
       requiresTheatreType := Remove(x.requiresTheatreType, doomed),
       hasTimeslot := Remove(x.hasTimeslot, doomed),
       hasTemporalOverlap := Remove(x.hasTemporalOverlap, doomed),
       undergoesSurgery := Remove(x.undergoesSurgery, doomed),
       admittedTo := Remove(x.admittedTo, doomed),
       assignedToRecovery := Remove(x.assignedToRecovery, doomed))
  }

  /**
   * The store after destroying every doomed individual: each is removed, and
   * so is every link that points at it, as the store's entity destruction does.
   */
  function Destroy(o: Ontology, doomed: set<Name>): (r: Ontology)
    ensures |r| <= |o|
  {
    if o == [] then []
    else (if o[0].name in doomed then [] else [Scrub(o[0], doomed)]) + Destroy(o[1..], doomed)
  }

  /** Names of the patients that undergo at least one of `surgeries`. */
  function UndergoingAny(o: Ontology, surgeries: set<Name>): set<Name> {
    set x | x in o && Patient in x.classes && Elems(x.undergoesSurgery) * surgeries != {} :: x.name
  }

  /** The patients undergoing `surgery`, in store order, as the deletions enumerate them. */
  function PatientsOf(o: Ontology, surgery: Name): (r: seq<Name>)
    ensures Elems(r) == UndergoingAny(o, {surgery})
  {
    if o == [] then []
    else
      var x := o[0];
      var head := if Patient in x.classes && surgery in x.undergoesSurgery then [x.name] else [];
      var rest := PatientsOf(o[1..], surgery);
      UndergoingCons(o, {surgery});
      MeetsOne(x.undergoesSurgery, surgery);
      assert Elems(head + rest) == Elems(head) + Elems(rest);
      head + rest
  }

  /** One cascade step of the deletions: the surgery's patients, then the surgery. */
  function Cascade(o: Ontology, surgery: Name): Ontology {
    Destroy(o, UndergoingAny(o, {surgery}) + {surgery})
  }

  /** Cascade steps for each surgery of `surgeries`, in order. */
  function CascadeAll(o: Ontology, surgeries: seq<Name>): Ontology
    decreases |surgeries|
  {
    if surgeries == [] then o
    else Cascade(CascadeAll(o, surgeries[..|surgeries| - 1]), surgeries[|surgeries| - 1])
  }

  // --------------------------------------------------------------- lemmas

  lemma MeetsOne(xs: seq<Name>, s: Name)
    ensures Elems(xs) * {s} != {} <==> s in xs
  {
    if s in xs {
      assert s in Elems(xs) * {s};
    }
  }

  lemma UndergoingCons(o: Ontology, surgeries: set<Name>)
    requires o != []
    ensures UndergoingAny(o, surgeries)
         == (if Patient in o[0].classes && Elems(o[0].undergoesSurgery) * surgeries != {} then {o[0].name} else {})
            + UndergoingAny(o[1..], surgeries)
  {
    assert forall y | y in o :: y == o[0] || y in o[1..];
  }

  lemma ElemsRemove(xs: seq<Name>, doomed: set<Name>)
    ensures Elems(Remove(xs, doomed)) == Elems(xs) - doomed
  {
  }

  lemma {:induction false} RemoveNothing(xs: seq<Name>)
    ensures Remove(xs, {}) == xs
  {
    if xs != [] {
      RemoveNothing(xs[1..]);
      assert xs == [xs[0]] + xs[1..];
    }
  }

  lemma {:induction false} RemoveTwice(xs: seq<Name>, a: set<Name>, b: set<Name>)
    ensures Remove(Remove(xs, a), b) == Remove(xs, a + b)
  {
    if xs != [] {
      RemoveTwice(xs[1..], a, b);
      var head := if xs[0] in a then [] else [xs[0]];
      var rest := Remove(xs[1..], a);
      assert Remove(xs, a) == head + rest;
      if xs[0] !in a {
        assert (head + rest)[1..] == rest;
      } else {
        assert head + rest == rest;
      }
    }
  }

  lemma ScrubLinksWithin(x: Individual, names: set<Name>, doomed: set<Name>)
    requires LinksWithin(x, names)
    ensures LinksWithin(Scrub(x, doomed), names - doomed)
  {
  }

  lemma ScrubNothing(x: Individual)
    ensures Scrub(x, {}) == x
  {
    RemoveNothing(x.worksInTheatre);
    RemoveNothing(x.performsOperation);
    RemoveNothing(x.requiresTheatreType);
    RemoveNothing(x.hasTimeslot);
    RemoveNothing(x.hasTemporalOverlap);
    RemoveNothing(x.undergoesSurgery);
    RemoveNothing(x.admittedTo);
    RemoveNothing(x.assignedToRecovery);
  }

  lemma ScrubTwice(x: Individual, a: set<Name>, b: set<Name>)
    ensures Scrub(Scrub(x, a), b) == Scrub(x, a + b)
  {
    RemoveTwice(x.worksInTheatre, a, b);
    RemoveTwice(x.performsOperation, a, b);
    RemoveTwice(x.requiresTheatreType, a, b);
    RemoveTwice(x.hasTimeslot, a, b);
    RemoveTwice(x.hasTemporalOverlap, a, b);
    RemoveTwice(x.undergoesSurgery, a, b);
    RemoveTwice(x.admittedTo, a, b);
    RemoveTwice(x.assignedToRecovery, a, b);
  }

  /** Destruction removes exactly the doomed names. */
  lemma {:induction false} DestroyNames(o: Ontology, doomed: set<Name>)
    ensures Names(Destroy(o, doomed)) == Names(o) - doomed
  {
    if o != [] {
      DestroyNames(o[1..], doomed);
      NamesCons(o);
      NamesAppend(if o[0].name in doomed then [] else [Scrub(o[0], doomed)], Destroy(o[1..], doomed));
    }
  }

  /** Destroying nothing changes nothing. */
  lemma {:induction false} DestroyNothing(o: Ontology)
    ensures Destroy(o, {}) == o
  {
    if o != [] {
      DestroyNothing(o[1..]);
      ScrubNothing(o[0]);
      assert o == [o[0]] + o[1..];
    }
  }

  /** Destroying in two batches is destroying their union at once. */
  lemma {:induction false} DestroyTwice(o: Ontology, a: set<Name>, b: set<Name>)
    ensures Destroy(Destroy(o, a), b) == Destroy(o, a + b)
  {
    if o != [] {
      DestroyTwice(o[1..], a, b);
      var rest := Destroy(o[1..], a);
      if o[0].name in a {
        assert Destroy(o, a) == rest;
      } else {
        ScrubTwice(o[0], a, b);
        var d := Destroy(o, a);
        assert d == [Scrub(o[0], a)] + rest;
        assert d[0] == Scrub(o[0], a) && d[1..] == rest;
      }
    }
  }

  /** Every individual that is not doomed survives, with only its doomed links dropped. */
  lemma {:induction false} DestroyKeeps(o: Ontology, doomed: set<Name>, x: Individual)
    requires x in o && x.name !in doomed
    ensures Scrub(x, doomed) in Destroy(o, doomed)
  {
    if o[0] != x {
      DestroyKeeps(o[1..], doomed, x);
    }
  }

  /** Every survivor is an individual that was not doomed, with only its doomed links dropped. */
  lemma {:induction false} DestroyOnly(o: Ontology, doomed: set<Name>, y: Individual)
    requires y in Destroy(o, doomed)
    ensures exists x :: x in o && x.name !in doomed && y == Scrub(x, doomed)
  {
    var rest := Destroy(o[1..], doomed);
    if y in rest {
      DestroyOnly(o[1..], doomed, y);
      var x :| x in o[1..] && x.name !in doomed && y == Scrub(x, doomed);
      assert x in o;
    } else {
      assert o[0] in o;
    }
  }

  lemma {:induction false} DestroyKeepsUnique(o: Ontology, doomed: set<Name>)
    requires UniqueNames(o)
    ensures UniqueNames(Destroy(o, doomed))
  {
    if o != [] {
      DestroyKeepsUnique(o[1..], doomed);
      DestroyNames(o[1..], doomed);
      var rest := Destroy(o[1..], doomed);
      if o[0].name !in doomed {
        var r := [Scrub(o[0], doomed)] + rest;
        assert Destroy(o, doomed) == r;
        assert r[0].name == o[0].name;
        assert o[0].name !in Names(rest);
        assert r[1..] == rest;
      } else {
        assert Destroy(o, doomed) == rest;
      }
    }
  }

  /** Destruction keeps the store well formed: no link is left dangling. */
  lemma DestroyKeepsWellFormed(o: Ontology, doomed: set<Name>)
    requires WellFormed(o)
    ensures WellFormed(Destroy(o, doomed))
  {
    DestroyKeepsUnique(o, doomed);
    DestroyNames(o, doomed);
    var r := Destroy(o, doomed);
    forall y | y in r
      ensures LinksWithin(y, Names(r))
    {
      DestroyOnly(o, doomed, y);
      var x :| x in o && x.name !in doomed && y == Scrub(x, doomed);
      ScrubLinksWithin(x, Names(o), doomed);
    }
  }

  lemma UndergoingSurvivor(o: Ontology, doomed: set<Name>, surgeries: set<Name>, y: Individual)
    requires y in Destroy(o, doomed) && Patient in y.classes && Elems(y.undergoesSurgery) * surgeries != {}
    ensures y.name in UndergoingAny(o, surgeries - doomed) - doomed
  {
    DestroyOnly(o, doomed, y);
    var x :| x in o && x.name !in doomed && y == Scrub(x, doomed);
    var s :| s in Elems(y.undergoesSurgery) * surgeries;
    assert s in Remove(x.undergoesSurgery, doomed);
    UndergoingWitness(o, x, s, surgeries - doomed);
  }

  lemma UndergoingWitness(o: Ontology, x: Individual, s: Name, surgeries: set<Name>)
    requires x in o && Patient in x.classes && s in x.undergoesSurgery && s in surgeries
    ensures x.name in UndergoingAny(o, surgeries)
  {
    assert s in Elems(x.undergoesSurgery) * surgeries;
  }

  lemma UndergoingAfterDestroySub(o: Ontology, doomed: set<Name>, surgeries: set<Name>)
    ensures UndergoingAny(Destroy(o, doomed), surgeries) <= UndergoingAny(o, surgeries - doomed) - doomed
  {
    var r := Destroy(o, doomed);
    forall n | n in UndergoingAny(r, surgeries)
      ensures n in UndergoingAny(o, surgeries - doomed) - doomed
    {
      var y :| y in r && Patient in y.classes && Elems(y.undergoesSurgery) * surgeries != {} && y.name == n;
      UndergoingSurvivor(o, doomed, surgeries, y);
    }
  }

  lemma UndergoingAfterDestroySup(o: Ontology, doomed: set<Name>, surgeries: set<Name>)
    ensures UndergoingAny(o, surgeries - doomed) - doomed <= UndergoingAny(Destroy(o, doomed), surgeries)
  {
    var r := Destroy(o, doomed);
    forall n | n in UndergoingAny(o, surgeries - doomed) - doomed
      ensures n in UndergoingAny(r, surgeries)
    {
      var x :| x in o && Patient in x.classes && Elems(x.undergoesSurgery) * (surgeries - doomed) != {} && x.name == n;
      DestroyKeeps(o, doomed, x);
      var s :| s in Elems(x.undergoesSurgery) * (surgeries - doomed);
      assert s in Elems(Scrub(x, doomed).undergoesSurgery) * surgeries;
    }
  }

  /** Patients found after a destruction: the survivors among those undergoing a surviving surgery. */
  lemma UndergoingAfterDestroy(o: Ontology, doomed: set<Name>, surgeries: set<Name>)
    ensures UndergoingAny(Destroy(o, doomed), surgeries) == UndergoingAny(o, surgeries - doomed) - doomed
  {
    UndergoingAfterDestroySub(o, doomed, surgeries);
    UndergoingAfterDestroySup(o, doomed, surgeries);
  }

  lemma UndergoingUnion(o: Ontology, a: set<Name>, b: set<Name>)
    ensures UndergoingAny(o, a + b) == UndergoingAny(o, a) + UndergoingAny(o, b)
  {
    forall n | n in UndergoingAny(o, a + b)
      ensures n in UndergoingAny(o, a) + UndergoingAny(o, b)
    {
      var x :| x in o && Patient in x.classes && Elems(x.undergoesSurgery) * (a + b) != {} && x.name == n;
      var s :| s in Elems(x.undergoesSurgery) * (a + b);
      if s in a {
        assert s in Elems(x.undergoesSurgery) * a;
      } else {
        assert s in Elems(x.undergoesSurgery) * b;
      }
    }
  }

  lemma UndergoingNothing(o: Ontology)
    ensures UndergoingAny(o, {}) == {}
  {
  }

  /**
   * Cascading over a list of surgeries destroys exactly those surgeries and
   * every patient that undergoes one of them, provided no listed surgery is
   * itself a patient of another listed surgery.
   */
  lemma {:induction false} CascadeAllIsDestroy(o: Ontology, surgeries: seq<Name>)
    requires forall s | s in surgeries :: s !in UndergoingAny(o, Elems(surgeries))
    ensures CascadeAll(o, surgeries) == Destroy(o, Elems(surgeries) + UndergoingAny(o, Elems(surgeries)))
  {
    if surgeries == [] {
      assert Elems(surgeries) == {};
      UndergoingNothing(o);
      assert Elems(surgeries) + UndergoingAny(o, Elems(surgeries)) == {};
      DestroyNothing(o);
    } else {
      var prefix, s := surgeries[..|surgeries| - 1], surgeries[|surgeries| - 1];
      assert surgeries == prefix + [s];
      ElemsSnoc(prefix, s);
      UndergoingUnion(o, Elems(prefix), {s});
      assert forall t | t in prefix :: t in surgeries;
      CascadeAllIsDestroy(o, prefix);
      assert s in surgeries;
      CascadeStep(o, Elems(prefix), s);
    }
  }

  /** One step of CascadeAllIsDestroy: cascading `s` after the surgeries `p` and their patients are gone. */
  lemma CascadeStep(o: Ontology, p: set<Name>, s: Name)
    requires s !in UndergoingAny(o, p + {s})
    ensures Cascade(Destroy(o, p + UndergoingAny(o, p)), s) == Destroy(o, (p + {s}) + UndergoingAny(o, p + {s}))
  {
    var u, us := UndergoingAny(o, p), UndergoingAny(o, {s});
    var all, uall := p + {s}, UndergoingAny(o, p + {s});
    var d := p + u;
    var um := UndergoingAny(Destroy(o, d), {s});
    assert um == if s in d then {} else us - d by {
      UndergoingAfterOne(o, d, s);
    }
    assert uall == u + us by {
      UndergoingUnion(o, p, {s});
    }
    assert d + (um + {s}) == all + uall by {
      if s in p {
        assert all == p;
      }
      CascadeSets(p, u, us, um, s, all, uall);
    }
    assert Destroy(Destroy(o, d), um + {s}) == Destroy(o, d + (um + {s})) by {
      DestroyTwice(o, d, um + {s});
    }
  }

  /** The patients of `s` left after a destruction: none if `s` went, else the survivors among them. */
  lemma UndergoingAfterOne(o: Ontology, doomed: set<Name>, s: Name)
    ensures UndergoingAny(Destroy(o, doomed), {s}) == if s in doomed then {} else UndergoingAny(o, {s}) - doomed
  {
    UndergoingAfterDestroy(o, doomed, {s});
    if s in doomed {
      assert {s} - doomed == {};
      UndergoingNothing(o);
    } else {
      assert {s} - doomed == {s};
    }
  }

  /** The set arithmetic of one step of CascadeAllIsDestroy. */
  lemma CascadeSets<T>(p: set<T>, u: set<T>, us: set<T>, um: set<T>, s: T, all: set<T>, uall: set<T>)
    requires all == p + {s} && uall == u + us && s !in uall
    requires s in p ==> all == p && uall == u
    requires um == if s in p + u then {} else us - (p + u)
    ensures (p + u) + (um + {s}) == all + uall
  {
  }

  /** A cascade over one surgery, as one destruction. */
  lemma CascadeOne(o: Ontology, surgery: Name)
    ensures CascadeAll(o, [surgery]) == Cascade(o, surgery)
  {
    assert [surgery][..0] == [];
  }

  lemma {:induction false} AppendKeepsUnique(o: Ontology, x: Individual)
    requires UniqueNames(o) && x.name !in Names(o)
    ensures UniqueNames(o + [x])
  {
    if o != [] {
      NamesCons(o);
      AppendKeepsUnique(o[1..], x);
      assert (o + [x])[1..] == o[1..] + [x];
      NamesAppend(o[1..], [x]);
    }
  }

  lemma {:induction false} ReplaceKeepsNames(o: Ontology, i: nat, x: Individual)
    requires i < |o| && x.name == o[i].name
    ensures Names(o[i := x]) == Names(o)
    ensures UniqueNames(o) ==> UniqueNames(o[i := x])
  {
    NamesCons(o);
    NamesCons(o[i := x]);
    if i > 0 {
      ReplaceKeepsNames(o[1..], i - 1, x);
      assert o[i := x][1..] == o[1..][i - 1 := x];
    } else {
      assert o[i := x][1..] == o[1..];
    }
  }

  lemma FindIs(o: Ontology, name: Name, j: nat)
    requires j < |o| && o[j].name == name
    requires forall k | 0 <= k < j :: o[k].name != name
    ensures Find(o, name) == Some(j)
  {
    assert o[j] in o;
  }

  /** After a put, the name leads to the new individual. */
  lemma PutFinds(o: Ontology, x: Individual)
    ensures Deref(Put(o, x), x.name) == x
  {
    var r := Put(o, x);
    match Find(o, x.name)
    case Some(i) =>
      FindIs(r, x.name, i);
    case None =>
      FindIs(r, x.name, |o|);
  }

  /** A put leaves every other name leading where it led before. */
  lemma PutKeeps(o: Ontology, x: Individual, name: Name)
    requires name != x.name
    ensures Deref(Put(o, x), name) == Deref(o, name)
  {
    var r := Put(o, x);
    match Find(o, name)
    case Some(j) =>
      FindIs(r, name, j);
    case None =>
  }

  /** A put keeps the store well formed when the new individual links only to existing names or itself. */
  lemma PutKeepsWellFormed(o: Ontology, x: Individual)
    requires WellFormed(o) && LinksWithin(x, Names(o) + {x.name})
    ensures WellFormed(Put(o, x))
  {
    var r := Put(o, x);
    match Find(o, x.name)
    case Some(i) =>
      ReplaceKeepsNames(o, i, x);
      forall y | y in r ensures LinksWithin(y, Names(r)) {
        var k :| 0 <= k < |r| && r[k] == y;
        if k != i { assert o[k] in o; }
      }
    case None =>
      AppendKeepsUnique(o, x);
      forall y | y in r ensures LinksWithin(y, Names(r)) {
        if y != x { assert y in o; }
      }
  }

  /** Destroying `names` one at a time, in order. */
  function DestroyEach(o: Ontology, names: seq<Name>): Ontology
    decreases |names|
  {
    if names == [] then o else Destroy(DestroyEach(o, names[..|names| - 1]), {names[|names| - 1]})
  }

  /** Destroying one at a time is destroying them all at once. */
  lemma {:induction false} DestroyEachIsDestroy(o: Ontology, names: seq<Name>)
    ensures DestroyEach(o, names) == Destroy(o, Elems(names))
    decreases |names|
  {
    if names == [] {
      assert Elems(names) == {};
      DestroyNothing(o);
    } else {
      var prefix, last := names[..|names| - 1], names[|names| - 1];
      assert names == prefix + [last];
      ElemsSnoc(prefix, last);
      DestroyEachIsDestroy(o, prefix);
      assert DestroyEach(o, names) == Destroy(Destroy(o, Elems(prefix)), {last});
      DestroyTwice(o, Elems(prefix), {last});
    }
  }

  lemma ElemsSnoc(xs: seq<Name>, x: Name)
    ensures Elems(xs + [x]) == Elems(xs) + {x}
  {
  }

  /** In a store with unique names, a name leads to the one individual that has it. */
  lemma {:induction false} DerefUnique(o: Ontology, x: Individual)
    requires UniqueNames(o) && x in o
    ensures Deref(o, x.name) == x
  {
    if o[0] != x {
      assert x in o[1..];
      assert o[0].name != x.name;
      DerefUnique(o[1..], x);
      var i := Find(o[1..], x.name).value;
      FindIs(o, x.name, i + 1);
    } else {
      FindIs(o, x.name, 0);
    }
  }

  /**
   * When no listed name leads to a patient, no listed surgery is a patient of
   * another: the condition under which a cascade over the list is one destruction.
   */
  lemma NoPatientListed(o: Ontology, surgeries: seq<Name>)
    requires UniqueNames(o)
    requires forall s | s in surgeries :: Patient !in Deref(o, s).classes
    ensures forall s | s in surgeries :: s !in UndergoingAny(o, Elems(surgeries))
  {
    forall s | s in surgeries
      ensures s !in UndergoingAny(o, Elems(surgeries))
    {
      if s in UndergoingAny(o, Elems(surgeries)) {
        var x :| x in o && Patient in x.classes && Elems(x.undergoesSurgery) * Elems(surgeries) != {} && x.name == s;
        DerefUnique(o, x);
        assert false;
      }
    }
  }

  /** Putting back the individual a name leads to changes nothing. */
  lemma PutSame(o: Ontology, name: Name)
    requires name in Names(o)
    ensures Put(o, Deref(o, name)) == o
  {
    var i := Find(o, name).value;
    assert o[i := o[i]] == o;
  }

  /** Whatever the exact lookup finds, the suffix lookup finds something too. */
  lemma SuffixSearchFindsExact(o: Ontology, name: Name)
    ensures SearchOne(o, name).Some? ==> SuffixSearch(o, name).Some?
  {
    if SearchOne(o, name).Some? {
      assert EndsWith(SearchOne(o, name).value.name, name);
    }
  }

  /**
   * The suffix lookup answers a query that names no individual: asked for
   * "Doe" in a store holding only Patient_John_Doe, it returns that patient,
   * where the exact lookup finds nothing.
   */
  lemma SuffixSearchOverreaches()
    ensures var o := [Blank("Patient_John_Doe").(classes := {Patient})];
            SuffixSearch(o, "Doe") == Some(o[0]) && SearchOne(o, "Doe") == None
  {
    var o := [Blank("Patient_John_Doe").(classes := {Patient})];
    assert EndsWith(o[0].name, "Doe");
    assert Names(o) == {"Patient_John_Doe"};
  }

  /**
   * It can also return the wrong one of two existing individuals: asked for
   * "Smith" where a patient Patient_Mary_Smith precedes the surgeon Smith, it
   * returns the patient.
   */
  lemma SuffixSearchPicksWrongIndividual()
    ensures var o := [Blank("Patient_Mary_Smith").(classes := {Patient}), Blank("Smith").(classes := {Surgeon})];
            SuffixSearch(o, "Smith") == Some(o[0]) && SearchOne(o, "Smith") == Some(o[1])
  {
    var o := [Blank("Patient_Mary_Smith").(classes := {Patient}), Blank("Smith").(classes := {Surgeon})];
    assert EndsWith(o[0].name, "Smith");
    FindIs(o, "Smith", 1);
  }
}
