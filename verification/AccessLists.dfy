/** Access lists of the plain access module (modules/access_modules/plain/simple_acc.c):
    one list for the component, and one per endpoint, copied from it on creation and
    dropped when it becomes empty. */
module AccessLists {
  import opened CFormat

  const COMPONENT := "component"

  type Table = map<string, set<string>>

  datatype Op = Add(obj: Option<string>, subject: string) | Remove(obj: Option<string>, subject: string)

  /** A null object stands for the component's list. */
  function Key(obj: Option<string>): string {
    if obj.None? then COMPONENT else obj.value
  }

  /** One call on the table; None where the source dereferences a missing component list. */
  function Apply(t: Table, op: Op): Option<Table> {
    var k := Key(op.obj);
    match op
    case Add(_, s) =>
      if k in t then Some(t[k := t[k] + {s}])
      else if k == COMPONENT then Some(t[k := {s}])
      else if COMPONENT in t then Some(t[k := t[COMPONENT] + {s}])
      else None
    case Remove(obj, s) =>
      if k !in t then Some(t)
      else if t[k] - {s} == {} && obj.Some? then Some(t - {k})
      else Some(t[k := t[k] - {s}])
  }

  function Run(t: Table, ops: seq<Op>): Option<Table>
    decreases ops
  {
    if ops == [] then Some(t)
    else
      var t1 :- Apply(t, ops[0]);
      Run(t1, ops[1..])
  }

  function WithList(t: Table, k: string): Table
    requires k == COMPONENT || k in t || COMPONENT in t
  {
    if k in t then t else t[k := if k == COMPONENT then {} else t[COMPONENT]]
  }

  lemma AddExtendsList(t: Table, obj: Option<string>, subject: string)
    requires Apply(t, Add(obj, subject)).Some?
    ensures var k := Key(obj); var w := WithList(t, k);
            Apply(t, Add(obj, subject)) == Some(w[k := w[k] + {subject}])
  {
    var k := Key(obj);
    var w := WithList(t, k);
    assert {} + {subject} == {subject};
    assert Apply(t, Add(obj, subject)).value == w[k := w[k] + {subject}];
  }

  // ---------- The module ----------

  class AccList {
    var members: set<string>

    constructor ()
      ensures members == {}
    {
      members := {};
    }
  }

  class AccessModule {
    var accTable: map<string, AccList>

    /** No two objects share a list. */
    ghost predicate Valid()
      reads this
    {
      forall k, l | k in accTable && l in accTable && k != l :: accTable[k] != accTable[l]
    }

    ghost function Lists(): set<AccList>
      reads this
    {
      accTable.Values
    }

    ghost function Contents(): (t: Table)
      reads this, Lists()
      ensures t.Keys == accTable.Keys
    {
      map k | k in accTable :: accTable[k].members
    }

    constructor ()
      ensures Valid() && Contents() == map[] && Lists() == {}
    {
      accTable := map[];
    }

    /** A new list holding what `parent` holds now, copied key by key. */
    method InheritFrom(parent: AccList) returns (objectList: AccList)
      ensures fresh(objectList) && objectList.members == parent.members
    {
      objectList := new AccList();
      var keys := parent.members;
      while keys != {}
        invariant keys <= parent.members && objectList.members == parent.members - keys
        invariant unchanged(parent) && fresh(objectList)
        decreases keys
      {
        var k :| k in keys;
        objectList.members := objectList.members + {k};
        keys := keys - {k};
      }
    }

    method AclAddObject(obj: string)
      requires Valid()
      requires obj == COMPONENT || obj in accTable || COMPONENT in accTable
      modifies this
      ensures Valid() && fresh(Lists() - old(Lists()))
      ensures Contents() == if obj in old(Contents()) then old(Contents())
                            else old(Contents())[obj := if obj == COMPONENT then {} else old(Contents())[COMPONENT]]
    {
      if obj in accTable { return; }
      var objectList;
      if obj != COMPONENT {
        objectList := InheritFrom(accTable[COMPONENT]);
      } else {
        objectList := new AccList();
      }
      ghost var before, inherited := Contents(), objectList.members;
      assert inherited == if obj == COMPONENT then {} else before[COMPONENT];
      assert forall k | k in accTable :: accTable[k] in Lists() && accTable[k] != objectList;
      accTable := accTable[obj := objectList];
      assert Contents() == before[obj := inherited];
    }

    method AclRmObject(obj: Option<string>) returns (rtn: int)
      requires Valid()
      modifies this
      ensures Valid() && Lists() <= old(Lists())
      ensures Contents() == if obj.Some? then old(Contents()) - {obj.value} else old(Contents())
      ensures rtn == if obj.Some? && obj.value !in old(accTable) then 1 else 0
    {
      if obj.Some? {
        rtn := if obj.value in accTable then 0 else 1;
        accTable := accTable - {obj.value};
      } else {
        rtn := 0;
      }
    }

    /** The list of an object, created first if need be. */
    method ListFor(obj: Option<string>) returns (objectList: AccList)
      requires Valid()
      requires Key(obj) == COMPONENT || Key(obj) in accTable || COMPONENT in accTable
      modifies this
      ensures Valid() && fresh(Lists() - old(Lists()))
      ensures Key(obj) in accTable && accTable[Key(obj)] == objectList
      ensures Contents() == WithList(old(Contents()), Key(obj))
    {
      if obj.None? {
        if COMPONENT !in accTable {
          AclAddObject(COMPONENT);
        }
        objectList := accTable[COMPONENT];
      } else if obj.value in accTable {
        objectList := accTable[obj.value];
      } else {
        AclAddObject(obj.value);
        objectList := accTable[obj.value];
      }
    }

    method AddAccess(obj: Option<string>, subject: string) returns (rtn: int)
      requires Valid()
      requires Apply(Contents(), Add(obj, subject)).Some?
      modifies this, Lists()
      ensures Valid() && fresh(Lists() - old(Lists()))
      ensures Some(Contents()) == Apply(old(Contents()), Add(obj, subject))
      ensures rtn == 1
    {
      var objectList := ListFor(obj);
      ghost var before := Contents();
      objectList.members := objectList.members + {subject};
      OneListChanged(before, Key(obj));
      AddExtendsList(old(Contents()), obj, subject);
      rtn := 1;
    }

    method RmAccess(obj: Option<string>, subject: string) returns (rtn: int)
      requires Valid()
      modifies this, Lists()
      ensures Valid() && Lists() <= old(Lists())
      ensures Some(Contents()) == Apply(old(Contents()), Remove(obj, subject))
      ensures rtn == if Key(obj) in old(Contents()) && subject in old(Contents())[Key(obj)] then 0 else 1
    {
      var key := if obj.None? then COMPONENT else obj.value;
      if key !in accTable { return 1; }
      var objectList := accTable[key];
      rtn := if subject in objectList.members then 0 else 1;
      ghost var before := Contents();
      objectList.members := objectList.members - {subject};
      OneListChanged(before, key);
      if objectList.members == {} {
        var _ := AclRmObject(obj);
      }
      assert Contents() == Apply(old(Contents()), Remove(obj, subject)).value;
    }

    method Perform(op: Op)
      requires Valid() && Apply(Contents(), op).Some?
      modifies this, Lists()
      ensures Valid() && fresh(Lists() - old(Lists()))
      ensures Some(Contents()) == Apply(old(Contents()), op)
    {
      match op {
        case Add(obj, subject) => var _ := AddAccess(obj, subject);
        case Remove(obj, subject) => var _ := RmAccess(obj, subject);
      }
    }

    /** A whole run of calls on the module. */
    method PerformAll(ops: seq<Op>)
      requires Valid() && Run(Contents(), ops).Some?
      modifies this, Lists()
      ensures Valid() && fresh(Lists() - old(Lists()))
      ensures Some(Contents()) == Run(old(Contents()), ops)
    {
      var i := 0;
      while i < |ops|
        invariant 0 <= i <= |ops| && Valid() && fresh(Lists() - old(Lists()))
        invariant Run(Contents(), ops[i..]).Some? && Run(Contents(), ops[i..]) == Run(old(Contents()), ops)
      {
        assert ops[i..][0] == ops[i] && ops[i..][1..] == ops[i + 1..];
        Perform(ops[i]);
        i := i + 1;
      }
    }

    /** Lists are not shared, so writing one changes one entry. */
    lemma OneListChanged(before: Table, key: string)
      requires Valid() && before.Keys == accTable.Keys && key in accTable
      requires forall l | l in Lists() && l != accTable[key] ::
                 forall k | k in accTable && accTable[k] == l :: l.members == before[k]
      ensures Contents() == before[key := accTable[key].members]
    {
      forall k | k in accTable && k != key ensures Contents()[k] == before[k] {
        assert accTable[k] in Lists();
      }
    }

    method HasAccessCredential(endpoint: Option<string>, credential: string) returns (rtn: int)
      requires Valid()
      ensures rtn == if Key(endpoint) !in Contents() then -1
                     else if credential in Contents()[Key(endpoint)] then 1 else 0
    {
      var key := if endpoint.None? then COMPONENT else endpoint.value;
      if key !in accTable { return -1; }
      rtn := if credential in accTable[key].members then 1 else 0;
    }
  }

  // ---------- Whole runs ----------

  lemma {:induction false} RunConcat(t: Table, a: seq<Op>, b: seq<Op>)
    ensures Run(t, a + b) == match Run(t, a) case None => None case Some(m) => Run(m, b)
    decreases a
  {
    if a == [] {
      assert a + b == b;
    } else {
      assert (a + b)[0] == a[0] && (a + b)[1..] == a[1..] + b;
      if Apply(t, a[0]).Some? {
        RunConcat(Apply(t, a[0]).value, a[1..], b);
      }
    }
  }

  lemma RunSnoc(ops: seq<Op>, op: Op)
    ensures Run(map[], ops + [op]) == match Run(map[], ops) case None => None case Some(m) => Apply(m, op)
  {
    RunConcat(map[], ops, [op]);
    if Run(map[], ops).Some? {
      var m := Run(map[], ops).value;
      assert [op][1..] == [];
      assert Run(m, [op]) == match Apply(m, op) case None => None case Some(t1) => Run(t1, []);
    }
  }

  /** The effect on one list of the calls that name it; all others are passed over. */
  function OwnOps(list: set<string>, obj: string, ops: seq<Op>): set<string> {
    if ops == [] then list
    else
      var before := OwnOps(list, obj, ops[..|ops| - 1]);
      var op := ops[|ops| - 1];
      if Key(op.obj) != obj then before
      else if op.Add? then before + {op.subject}
      else before - {op.subject}
  }

  /** Endpoint `e` has had a list since call k, which created it. */
  ghost predicate CreatedAt(ops: seq<Op>, e: string, k: nat) {
    && k < |ops| && ops[k].Add? && Key(ops[k].obj) == e
    && Run(map[], ops[..k]).Some? && e !in Run(map[], ops[..k]).value
    && forall j | k < j <= |ops| :: Run(map[], ops[..j]).Some? && e in Run(map[], ops[..j]).value
  }

  /** After any run, each endpoint's list is the component's list as it was when the endpoint's
      list was created, changed since by the endpoint's own calls and by nothing else. */
  lemma {:induction false} ListIsCopyPlusOwnOps(ops: seq<Op>, e: string) returns (k: nat)
    requires Run(map[], ops).Some? && e in Run(map[], ops).value && e != COMPONENT
    ensures CreatedAt(ops, e, k)
    ensures COMPONENT in Run(map[], ops[..k]).value
    ensures Run(map[], ops).value[e] == OwnOps(Run(map[], ops[..k]).value[COMPONENT], e, ops[k..])
    decreases |ops|
  {
    var ops0, op := ops[..|ops| - 1], ops[|ops| - 1];
    assert ops == ops0 + [op];
    RunSnoc(ops0, op);
    if e !in Run(map[], ops0).value {
      k := |ops| - 1;
      assert ops[k..] == [op] && [op][..0] == [];
      assert ops[..|ops|] == ops;
    } else {
      k := ListIsCopyPlusOwnOps(ops0, e);
      CreatedStays(ops0, op, e, k);
      OneMoreOp(ops0, op, e, k);
    }
  }

  lemma CreatedStays(ops: seq<Op>, op: Op, e: string, k: nat)
    requires CreatedAt(ops, e, k)
    requires Run(map[], ops + [op]).Some? && e in Run(map[], ops + [op]).value
    ensures CreatedAt(ops + [op], e, k)
  {
    var all := ops + [op];
    assert all[..k] == ops[..k] && all[..|all|] == all;
    forall j | k < j <= |all| ensures Run(map[], all[..j]).Some? && e in Run(map[], all[..j]).value {
      if j < |all| { assert all[..j] == ops[..j]; }
    }
  }

  lemma OneMoreOp(ops: seq<Op>, op: Op, e: string, k: nat)
    requires k <= |ops| && Run(map[], ops + [op]).Some? && e in Run(map[], ops + [op]).value && e != COMPONENT
    requires Run(map[], ops).Some? && e in Run(map[], ops).value
    requires Run(map[], ops[..k]).Some? && COMPONENT in Run(map[], ops[..k]).value
    requires Run(map[], ops).value[e] == OwnOps(Run(map[], ops[..k]).value[COMPONENT], e, ops[k..])
    ensures (ops + [op])[..k] == ops[..k]
    ensures Run(map[], ops + [op]).value[e] == OwnOps(Run(map[], ops[..k]).value[COMPONENT], e, (ops + [op])[k..])
  {
    RunSnoc(ops, op);
    var own := (ops + [op])[k..];
    assert own[..|own| - 1] == ops[k..] && own[|own| - 1] == op;
  }

  lemma ComponentStep(t: Table, op: Op)
    requires op.obj != Some(COMPONENT) && Apply(t, op).Some?
    ensures var u, list := Apply(t, op).value, if COMPONENT in t then t[COMPONENT] else {};
            && (COMPONENT in u <==> COMPONENT in t || (op.Add? && op.obj.None?))
            && (COMPONENT in u ==> u[COMPONENT] == OwnOps(list, COMPONENT, [op]))
            && (COMPONENT !in t && !(op.Add? && op.obj.None?) ==> OwnOps({}, COMPONENT, [op]) == {})
  {
    assert [op][..0] == [];
  }

  /** The component's list, once there, changes by its own calls only; a removal that names the
      component explicitly is the one call that can drop it. */
  lemma {:induction false} ComponentListIsOwnOps(ops: seq<Op>)
    requires Run(map[], ops).Some?
    requires forall op | op in ops :: op.obj != Some(COMPONENT)
    ensures COMPONENT in Run(map[], ops).value <==> exists op :: op in ops && op.Add? && op.obj.None?
    ensures COMPONENT in Run(map[], ops).value ==> Run(map[], ops).value[COMPONENT] == OwnOps({}, COMPONENT, ops)
    ensures COMPONENT !in Run(map[], ops).value ==> OwnOps({}, COMPONENT, ops) == {}
    decreases |ops|
  {
    if ops != [] {
      var ops0, op := ops[..|ops| - 1], ops[|ops| - 1];
      assert ops == ops0 + [op];
      RunSnoc(ops0, op);
      assert op in ops && forall o | o in ops :: o in ops0 || o == op;
      ComponentListIsOwnOps(ops0);
      ComponentStep(Run(map[], ops0).value, op);
    }
  }

  /** Every endpoint list in the table is non-empty. */
  lemma {:induction false} EndpointListsNonEmpty(ops: seq<Op>, e: string)
    requires Run(map[], ops).Some? && e in Run(map[], ops).value && e != COMPONENT
    ensures Run(map[], ops).value[e] != {}
    decreases |ops|
  {
    var ops0, op := ops[..|ops| - 1], ops[|ops| - 1];
    assert ops == ops0 + [op];
    RunSnoc(ops0, op);
    if e in Run(map[], ops0).value {
      EndpointListsNonEmpty(ops0, e);
    }
    if Key(op.obj) == e && op.Add? {
      assert op.subject in Run(map[], ops).value[e];
    }
  }

  /** A list disappears only by its own removal, and only when nothing else is left in it. */
  lemma ListDroppedOnlyWhenEmptied(t: Table, op: Op, e: string)
    requires Apply(t, op).Some? && e in t
    ensures e !in Apply(t, op).value <==> op.Remove? && op.obj == Some(e) && t[e] <= {op.subject}
  {
    if op.Remove? && Key(op.obj) == e {
      assert t[e] - {op.subject} == {} <==> t[e] <= {op.subject};
    }
  }

  // ---------- Which runs succeed ----------

  predicate ComponentFilled(ops: seq<Op>) {
    exists j :: 0 <= j < |ops| && ops[j].Add? && ops[j].obj.None?
  }

  /** Each call that adds to an endpoint comes after one that adds to the component. */
  predicate FilledInTime(ops: seq<Op>) {
    forall k :: 0 <= k < |ops| && ops[k].Add? && ops[k].obj.Some? ==> ComponentFilled(ops[..k])
  }

  lemma FilledSnoc(ops: seq<Op>, op: Op)
    ensures ComponentFilled(ops + [op]) <==> ComponentFilled(ops) || (op.Add? && op.obj.None?)
    ensures FilledInTime(ops + [op]) <==> FilledInTime(ops) && (op.Add? && op.obj.Some? ==> ComponentFilled(ops))
  {
    var all := ops + [op];
    if ComponentFilled(ops) {
      var j :| 0 <= j < |ops| && ops[j].Add? && ops[j].obj.None?;
      assert all[j] == ops[j];
    }
    if op.Add? && op.obj.None? { assert all[|ops|] == op; }
    forall k | 0 <= k <= |ops| ensures all[..k] == ops[..k] {
    }
    assert all[|ops|] == op && ops[..|ops|] == ops;
    if FilledInTime(all) {
      forall k | 0 <= k < |ops| && ops[k].Add? && ops[k].obj.Some? ensures ComponentFilled(ops[..k]) {
        assert all[k] == ops[k] && all[..k] == ops[..k];
      }
    }
  }

  /** A run in which no call names the component explicitly succeeds if and only if each call that
      adds to an endpoint comes after one that adds to the component. */
  lemma {:induction false} RunSucceedsIff(ops: seq<Op>)
    requires forall op | op in ops :: op.obj != Some(COMPONENT)
    ensures Run(map[], ops).Some? <==> FilledInTime(ops)
    ensures Run(map[], ops).Some? ==> (COMPONENT in Run(map[], ops).value <==> ComponentFilled(ops))
    ensures Run(map[], ops).Some? && !ComponentFilled(ops) ==> Run(map[], ops).value == map[]
    decreases |ops|
  {
    if ops != [] {
      var ops0, op := ops[..|ops| - 1], ops[|ops| - 1];
      assert ops == ops0 + [op] && op in ops && forall o | o in ops0 :: o in ops;
      RunSucceedsIff(ops0);
      RunSnoc(ops0, op);
      FilledSnoc(ops0, op);
      if Run(map[], ops0).Some? && Apply(Run(map[], ops0).value, op).Some? {
        ComponentStep(Run(map[], ops0).value, op);
      }
    }
  }

  /** An endpoint list is asked for where neither it nor the component's exists. */
  predicate Missing(t: Table, op: Op) {
    op.Add? && Key(op.obj) !in t && Key(op.obj) != COMPONENT && COMPONENT !in t
  }

  /** Any run at all fails if and only if at some point, reached without failing, a list is missing. */
  lemma {:induction false} RunFailsIff(ops: seq<Op>)
    ensures Run(map[], ops).None? <==>
            exists k :: 0 <= k < |ops| && Run(map[], ops[..k]).Some? && Missing(Run(map[], ops[..k]).value, ops[k])
    decreases |ops|
  {
    if ops != [] {
      var ops0, op := ops[..|ops| - 1], ops[|ops| - 1];
      assert ops == ops0 + [op];
      RunFailsIff(ops0);
      RunSnoc(ops0, op);
      forall k | 0 <= k < |ops0| ensures ops0[..k] == ops[..k] && ops0[k] == ops[k] {
      }
      if Run(map[], ops).None? {
        if Run(map[], ops0).None? {
          var k :| 0 <= k < |ops0| && Run(map[], ops0[..k]).Some? && Missing(Run(map[], ops0[..k]).value, ops0[k]);
          assert Run(map[], ops[..k]).Some? && Missing(Run(map[], ops[..k]).value, ops[k]);
        } else {
          assert ops[..|ops0|] == ops0 && Missing(Run(map[], ops[..|ops0|]).value, ops[|ops0|]);
        }
      }
    }
  }

  /** In particular no call fails once the first one fills the component's list. */
  lemma ComponentListStays(ops: seq<Op>)
    requires ops != [] && ops[0].Add? && ops[0].obj.None?
    requires forall op | op in ops :: op.obj != Some(COMPONENT)
    ensures Run(map[], ops).Some? && COMPONENT in Run(map[], ops).value
  {
    RunSucceedsIff(ops);
    assert ComponentFilled(ops);
    forall k | 0 <= k < |ops| && ops[k].Add? && ops[k].obj.Some? ensures ComponentFilled(ops[..k]) {
      assert k != 0 && ops[..k][0] == ops[0];
    }
  }

  /** A run that fails: the first endpoint list asked for, with no list to copy. */
  lemma MissingComponentListFails(e: string, s: string)
    requires e != "component"
    ensures Run(map[], [Add(Some(e), s)]).None? && !FilledInTime([Add(Some(e), s)])
  {
    var ops := [Add(Some(e), s)];
    RunSucceedsIff(ops);
    assert !ComponentFilled(ops[..0]);
  }
}
