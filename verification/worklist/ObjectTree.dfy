/** The tree of device objects, and the orders in which it is checked, reset and generated. */
module ObjectTree {

  datatype Kind = Device | Bank | Register | Field | Attribute | Connect | Port | Implement | Interface | Data | Event | Group

  /** The list of an object that another one is in. */
  datatype Role = Childs | Events | Attributes | Implements | Connects | Ports | Groups | Registers | Impls

  /** `id` names the object; `subs` has the members of all of its lists. */
  datatype Object = Object(id: nat, kind: Kind, subs: seq<Sub>)

  datatype Sub = Sub(role: Role, obj: Object)

  datatype Phase = Check | Reset | Gen

  /** The lists that a phase goes through after the children of an object. */
  function Roles(ph: Phase, k: Kind): seq<Role> {
    match k
    case Bank => [Events, Attributes, Implements, Groups]
    case Port => [Events, Connects, Attributes, Implements] + if ph.Check? then [] else [Impls]
    case Group => if ph.Gen? then [Events, Groups, Registers] else [Events, Registers, Groups]
    case Register => if ph.Reset? then [] else [Events]
    case Attribute => if ph.Reset? then [] else [Events]
    case Connect => if ph.Reset? then [] else [Events]
    case _ => []
  }

  /** The lists of the device itself, after its children. */
  function DeviceRoles(ph: Phase): seq<Role> {
    match ph
    case Check => [Connects, Implements, Attributes, Ports, Events]
    case Reset => [Connects, Attributes, Implements, Ports, Events, Attributes]
    case Gen => [Connects, Implements, Events, Ports, Attributes]
  }

  /** The objects visited from one object on, in order. */
  function Visits(ph: Phase, o: Object): seq<nat>
    decreases o, 2
  {
    [o.id] + VisitsRoles(ph, o.subs, [Childs] + Roles(ph, o.kind))
  }

  function VisitsRoles(ph: Phase, subs: seq<Sub>, roles: seq<Role>): seq<nat>
    decreases subs, 1, |roles|
  {
    if roles == [] then [] else VisitsRole(ph, subs, roles[0]) + VisitsRoles(ph, subs, roles[1..])
  }

  function VisitsRole(ph: Phase, subs: seq<Sub>, role: Role): seq<nat>
    decreases subs, 0
  {
    if subs == [] then []
    else
      var s := subs[0];
      assert s.obj < s;
      (if s.role == role then Visits(ph, s.obj) else []) + VisitsRole(ph, subs[1..], role)
  }

  /** The visits of a whole round, the device first. */
  function DeviceVisits(ph: Phase, device: Object): seq<nat> {
    Visits(ph, device) + VisitsRoles(ph, device.subs, DeviceRoles(ph))
  }

  /** The events of registers, attributes and connects, with what is below them. */
  function EventsBelow(o: Object): seq<nat>
    decreases o, 2
  {
    (if o.kind.Register? || o.kind.Attribute? || o.kind.Connect? then VisitsRole(Check, o.subs, Events) else []) +
    EventsRoles(o.subs, [Childs] + Roles(Check, o.kind))
  }

  function EventsRoles(subs: seq<Sub>, roles: seq<Role>): seq<nat>
    decreases subs, 1, |roles|
  {
    if roles == [] then [] else EventsRole(subs, roles[0]) + EventsRoles(subs, roles[1..])
  }

  function EventsRole(subs: seq<Sub>, role: Role): seq<nat>
    decreases subs, 0
  {
    if subs == [] then []
    else
      var s := subs[0];
      assert s.obj < s;
      (if s.role == role then EventsBelow(s.obj) else []) + EventsRole(subs[1..], role)
  }

  function DeviceEvents(device: Object): seq<nat> {
    EventsBelow(device) + EventsRoles(device.subs, DeviceRoles(Check))
  }

  // ----- which phase visits what -----

  lemma {:induction false} InRoles(ph: Phase, subs: seq<Sub>, roles: seq<Role>, id: nat)
    ensures id in VisitsRoles(ph, subs, roles) <==> exists k | 0 <= k < |roles| :: id in VisitsRole(ph, subs, roles[k])
    decreases roles
  {
    if roles != [] {
      InRoles(ph, subs, roles[1..], id);
      hide VisitsRole;
      if k :| 0 <= k < |roles| && id in VisitsRole(ph, subs, roles[k]) {
        if k > 0 {
          assert roles[1..][k - 1] == roles[k];
        }
      }
    }
  }

  lemma {:induction false} InEventsRoles(subs: seq<Sub>, roles: seq<Role>, id: nat)
    ensures id in EventsRoles(subs, roles) <==> exists k | 0 <= k < |roles| :: id in EventsRole(subs, roles[k])
    decreases roles
  {
    if roles != [] {
      InEventsRoles(subs, roles[1..], id);
      hide EventsRole;
      if k :| 0 <= k < |roles| && id in EventsRole(subs, roles[k]) {
        if k > 0 {
          assert roles[1..][k - 1] == roles[k];
        }
      }
    }
  }

  predicate Within(a: seq<Role>, b: seq<Role>) {
    forall k | 0 <= k < |a| :: a[k] in b
  }

  /** Generation visits what the check visits. */
  lemma {:induction false} GenVisitsChecked(o: Object, id: nat)
    requires id in Visits(Check, o)
    ensures id in Visits(Gen, o)
    decreases o, 2
  {
    if id != o.id {
      GenRolesChecked(o.subs, [Childs] + Roles(Check, o.kind), [Childs] + Roles(Gen, o.kind), id);
    }
  }

  lemma {:induction false} GenRolesChecked(subs: seq<Sub>, a: seq<Role>, b: seq<Role>, id: nat)
    requires id in VisitsRoles(Check, subs, a) && Within(a, b)
    ensures id in VisitsRoles(Gen, subs, b)
    decreases subs, 1
  {
    InRoles(Check, subs, a, id);
    InRoles(Gen, subs, b, id);
    var k :| 0 <= k < |a| && id in VisitsRole(Check, subs, a[k]);
    GenRoleChecked(subs, a[k], id);
    var j :| 0 <= j < |b| && b[j] == a[k];
  }

  lemma {:induction false} GenRoleChecked(subs: seq<Sub>, role: Role, id: nat)
    requires id in VisitsRole(Check, subs, role)
    ensures id in VisitsRole(Gen, subs, role)
    decreases subs, 0
  {
    var s := subs[0];
    if s.role == role && id in Visits(Check, s.obj) {
      assert s.obj < s;
      GenVisitsChecked(s.obj, id);
    } else {
      GenRoleChecked(subs[1..], role, id);
    }
  }

  /** What the check visits is reset, or it is below an event of a register, attribute or connect. */
  lemma {:induction false} ResetVisitsChecked(o: Object, id: nat)
    requires id in Visits(Check, o)
    ensures id in Visits(Reset, o) || id in EventsBelow(o)
    decreases o, 2
  {
    if id != o.id {
      var a, b := [Childs] + Roles(Check, o.kind), [Childs] + Roles(Reset, o.kind);
      InRoles(Check, o.subs, a, id);
      var k :| 0 <= k < |a| && id in VisitsRole(Check, o.subs, a[k]);
      if a[k] in b {
        ResetRoleChecked(o.subs, a[k], id);
        InRoles(Reset, o.subs, b, id);
        InEventsRoles(o.subs, a, id);
        var j :| 0 <= j < |b| && b[j] == a[k];
      } else {
        assert a[k] == Events;
      }
    }
  }

  lemma {:induction false} ResetRoleChecked(subs: seq<Sub>, role: Role, id: nat)
    requires id in VisitsRole(Check, subs, role)
    ensures id in VisitsRole(Reset, subs, role) || id in EventsRole(subs, role)
    decreases subs, 0
  {
    var s := subs[0];
    if s.role == role && id in Visits(Check, s.obj) {
      assert s.obj < s;
      ResetVisitsChecked(s.obj, id);
    } else {
      ResetRoleChecked(subs[1..], role, id);
    }
  }

  // ----- the reset passes over events -----

  /** The object and everything below it. */
  function Ids(o: Object): set<nat>
    decreases o, 1
  {
    {o.id} + AllIds(o.subs)
  }

  function AllIds(subs: seq<Sub>): set<nat>
    decreases subs, 0
  {
    if subs == [] then {}
    else
      var s := subs[0];
      assert s.obj < s;
      Ids(s.obj) + AllIds(subs[1..])
  }

  /** Every object stands in one place only. */
  predicate Tree(o: Object)
    decreases o, 1
  {
    o.id !in AllIds(o.subs) && Forest(o.subs)
  }

  predicate Forest(subs: seq<Sub>)
    decreases subs, 0
  {
    subs != [] ==>
      var s := subs[0];
      assert s.obj < s;
      Tree(s.obj) && Ids(s.obj) !! AllIds(subs[1..]) && Forest(subs[1..])
  }

  lemma {:induction false} VisitsInTree(ph: Phase, o: Object, id: nat)
    requires id in Visits(ph, o)
    ensures id in Ids(o)
    decreases o, 2
  {
    if id != o.id {
      VisitsRolesInTree(ph, o.subs, [Childs] + Roles(ph, o.kind), id);
    }
  }

  lemma {:induction false} VisitsRolesInTree(ph: Phase, subs: seq<Sub>, roles: seq<Role>, id: nat)
    requires id in VisitsRoles(ph, subs, roles)
    ensures id in AllIds(subs)
    decreases subs, 1
  {
    InRoles(ph, subs, roles, id);
    var k :| 0 <= k < |roles| && id in VisitsRole(ph, subs, roles[k]);
    VisitsRoleInTree(ph, subs, roles[k], id);
  }

  lemma {:induction false} VisitsRoleInTree(ph: Phase, subs: seq<Sub>, role: Role, id: nat)
    requires id in VisitsRole(ph, subs, role)
    ensures id in AllIds(subs)
    decreases subs, 0
  {
    var s := subs[0];
    if s.role == role && id in Visits(ph, s.obj) {
      assert s.obj < s;
      VisitsInTree(ph, s.obj, id);
    } else {
      VisitsRoleInTree(ph, subs[1..], role, id);
    }
  }

  lemma {:induction false} EventsInTree(o: Object, id: nat)
    requires id in EventsBelow(o)
    ensures id in AllIds(o.subs)
    decreases o, 2
  {
    if id in EventsRoles(o.subs, [Childs] + Roles(Check, o.kind)) {
      EventsRolesInTree(o.subs, [Childs] + Roles(Check, o.kind), id);
    } else {
      VisitsRoleInTree(Check, o.subs, Events, id);
    }
  }

  lemma {:induction false} EventsRolesInTree(subs: seq<Sub>, roles: seq<Role>, id: nat)
    requires id in EventsRoles(subs, roles)
    ensures id in AllIds(subs)
    decreases subs, 1
  {
    InEventsRoles(subs, roles, id);
    var k :| 0 <= k < |roles| && id in EventsRole(subs, roles[k]);
    EventsRoleInTree(subs, roles[k], id);
  }

  lemma {:induction false} EventsRoleInTree(subs: seq<Sub>, role: Role, id: nat)
    requires id in EventsRole(subs, role)
    ensures id in AllIds(subs)
    decreases subs, 0
  {
    var s := subs[0];
    if s.role == role && id in EventsBelow(s.obj) {
      assert s.obj < s;
      EventsInTree(s.obj, id);
    } else {
      EventsRoleInTree(subs[1..], role, id);
    }
  }

  /** In a tree, what is below an event of a register, attribute or connect is not reset. */
  lemma {:induction false} EventsAreNotReset(o: Object, id: nat)
    requires Tree(o) && id in EventsBelow(o)
    ensures id !in Visits(Reset, o)
    decreases o, 2
  {
    var a, b := [Childs] + Roles(Check, o.kind), [Childs] + Roles(Reset, o.kind);
    EventsInTree(o, id);
    if id in VisitsRoles(Reset, o.subs, b) {
      if id in EventsRoles(o.subs, a) {
        RolesAreNotReset(o.subs, a, b, id);
      } else {
        assert b == [Childs];
        InRoles(Reset, o.subs, b, id);
        OtherList(o.subs, Events, Childs, id);
      }
      assert false;
    }
  }

  lemma {:induction false} RolesAreNotReset(subs: seq<Sub>, a: seq<Role>, b: seq<Role>, id: nat)
    requires Forest(subs) && id in EventsRoles(subs, a)
    ensures id !in VisitsRoles(Reset, subs, b)
    decreases subs, 1
  {
    InEventsRoles(subs, a, id);
    InRoles(Reset, subs, b, id);
    var k :| 0 <= k < |a| && id in EventsRole(subs, a[k]);
    forall j | 0 <= j < |b|
      ensures id !in VisitsRole(Reset, subs, b[j])
    {
      RoleIsNotReset(subs, a[k], b[j], id);
    }
  }

  lemma {:induction false} RoleIsNotReset(subs: seq<Sub>, role: Role, role': Role, id: nat)
    requires Forest(subs) && id in EventsRole(subs, role)
    ensures id !in VisitsRole(Reset, subs, role')
    decreases subs, 0
  {
    var s, rest := subs[0], subs[1..];
    assert s.obj < s;
    if s.role == role && id in EventsBelow(s.obj) {
      EventsAreNotReset(s.obj, id);
      EventsInTree(s.obj, id);
      if id in VisitsRole(Reset, rest, role') {
        VisitsRoleInTree(Reset, rest, role', id);
      }
    } else {
      RoleIsNotReset(rest, role, role', id);
      EventsRoleInTree(rest, role, id);
      if id in Visits(Reset, s.obj) {
        VisitsInTree(Reset, s.obj, id);
      }
    }
  }

  /** Different lists have different objects. */
  lemma {:induction false} OtherList(subs: seq<Sub>, role: Role, role': Role, id: nat)
    requires Forest(subs) && role != role' && id in VisitsRole(Check, subs, role)
    ensures id !in VisitsRole(Reset, subs, role')
    decreases subs
  {
    var s, rest := subs[0], subs[1..];
    if s.role == role && id in Visits(Check, s.obj) {
      VisitsInTree(Check, s.obj, id);
      if id in VisitsRole(Reset, rest, role') {
        VisitsRoleInTree(Reset, rest, role', id);
      }
    } else {
      OtherList(rest, role, role', id);
      VisitsRoleInTree(Check, rest, role, id);
      if id in Visits(Reset, s.obj) {
        VisitsInTree(Reset, s.obj, id);
      }
    }
  }

  lemma DeviceEventsAreNotReset(device: Object, id: nat)
    requires Tree(device) && device.kind.Device? && id in DeviceEvents(device)
    ensures id !in DeviceVisits(Reset, device)
  {
    var a, b := DeviceRoles(Check), DeviceRoles(Reset);
    var c, d := [Childs] + Roles(Check, Device), [Childs] + Roles(Reset, Device);
    hide EventsRoles, VisitsRoles, Tree;
    var e := if id in EventsRoles(device.subs, a) then a else c;
    assert id in EventsRoles(device.subs, e);
    assert Forest(device.subs) && device.id !in AllIds(device.subs) by { TreeParts(device); }
    EventsRolesInTree(device.subs, e, id);
    RolesAreNotReset(device.subs, e, b, id);
    RolesAreNotReset(device.subs, e, d, id);
  }

  lemma TreeParts(o: Object)
    requires Tree(o)
    ensures Forest(o.subs) && o.id !in AllIds(o.subs)
  {
  }

  /** Over a whole device: the objects that the check visits are all visited by generation, and in a
      tree they are all reset but for the events of registers, attributes and connects, which are not. */
  lemma PhasesOfDevice(device: Object, id: nat)
    requires id in DeviceVisits(Check, device)
    ensures id in DeviceVisits(Gen, device)
    ensures id in DeviceVisits(Reset, device) || id in DeviceEvents(device)
    ensures Tree(device) && device.kind.Device? ==> (id in DeviceVisits(Reset, device) <==> id !in DeviceEvents(device))
  {
    if Tree(device) && device.kind.Device? && id in DeviceEvents(device) {
      DeviceEventsAreNotReset(device, id);
    }
    if id in Visits(Check, device) {
      GenVisitsChecked(device, id);
      ResetVisitsChecked(device, id);
    } else {
      var a, b, c := DeviceRoles(Check), DeviceRoles(Reset), DeviceRoles(Gen);
      GenRolesChecked(device.subs, a, c, id);
      InRoles(Check, device.subs, a, id);
      var k :| 0 <= k < |a| && id in VisitsRole(Check, device.subs, a[k]);
      ResetRoleChecked(device.subs, a[k], id);
      InRoles(Reset, device.subs, b, id);
      InEventsRoles(device.subs, a, id);
      assert a[k] in b;
      var j :| 0 <= j < |b| && b[j] == a[k];
    }
  }

  // ----- which objects are visited -----

  /** The lists that an object of a kind has. */
  predicate Owns(k: Kind, role: Role) {
    match role
    case Childs => true
    case Events => true
    case Connects => k.Device? || k.Port?
    case Implements => k.Device? || k.Port? || k.Bank?
    case Attributes => k.Device? || k.Port? || k.Bank? || k.Group?
    case Ports => k.Device?
    case Groups => k.Bank? || k.Group?
    case Registers => k.Group?
    case Impls => false
  }

  /** The lists that a phase does not go through: attributes of groups, the events of objects at the
      bottom, and in the reset those of registers, attributes and connects. */
  predicate Overlooked(ph: Phase, k: Kind, role: Role) {
    || (role.Attributes? && k.Group?)
    || (role.Events? && (k.Field? || k.Implement? || k.Interface? || k.Data? || k.Event?))
    || (role.Events? && ph.Reset? && (k.Register? || k.Attribute? || k.Connect?))
  }

  /** Objects have the lists of their kind, and only the whole tree is a device. */
  predicate WellFormed(o: Object)
    decreases o, 1
  {
    AllWellFormed(o.kind, o.subs)
  }

  predicate AllWellFormed(k: Kind, subs: seq<Sub>)
    decreases subs, 0
  {
    subs != [] ==>
      var s := subs[0];
      assert s.obj < s;
      Owns(k, s.role) && !s.obj.kind.Device? && WellFormed(s.obj) && AllWellFormed(k, subs[1..])
  }

  /** What is in an overlooked list, or below. */
  function Unseen(ph: Phase, o: Object): set<nat>
    decreases o, 1
  {
    AllUnseen(ph, o.kind, o.subs)
  }

  function AllUnseen(ph: Phase, k: Kind, subs: seq<Sub>): set<nat>
    decreases subs, 0
  {
    if subs == [] then {}
    else
      var s := subs[0];
      assert s.obj < s;
      (if Overlooked(ph, k, s.role) then Ids(s.obj) else Unseen(ph, s.obj)) + AllUnseen(ph, k, subs[1..])
  }

  lemma {:induction false} UnseenInTree(ph: Phase, o: Object)
    ensures Unseen(ph, o) <= AllIds(o.subs)
    decreases o, 1
  {
    AllUnseenInTree(ph, o.kind, o.subs);
  }

  lemma {:induction false} AllUnseenInTree(ph: Phase, k: Kind, subs: seq<Sub>)
    ensures AllUnseen(ph, k, subs) <= AllIds(subs)
    decreases subs, 0
  {
    if subs != [] {
      var s := subs[0];
      assert s.obj < s;
      UnseenInTree(ph, s.obj);
      AllUnseenInTree(ph, k, subs[1..]);
    }
  }

  lemma FirstVisited(ph: Phase, subs: seq<Sub>, roles: seq<Role>, id: nat)
    requires subs != []
    ensures id in VisitsRoles(ph, subs, roles) <==>
            (subs[0].role in roles && id in Visits(ph, subs[0].obj)) || id in VisitsRoles(ph, subs[1..], roles)
  {
    InRoles(ph, subs, roles, id);
    InRoles(ph, subs[1..], roles, id);
    hide Visits, VisitsRoles;
    var s := subs[0];
    assert s.obj < s;
    if s.role in roles && id in Visits(ph, s.obj) {
      var k :| 0 <= k < |roles| && roles[k] == s.role;
      assert id in VisitsRole(ph, subs, roles[k]);
    }
    if k :| 0 <= k < |roles| && id in VisitsRole(ph, subs[1..], roles[k]) {
      assert id in VisitsRole(ph, subs, roles[k]);
    }
  }

  /** The roles are those of the kind that are not overlooked. */
  predicate Sees(ph: Phase, k: Kind, roles: seq<Role>) {
    forall role :: Owns(k, role) ==> (role in roles <==> !Overlooked(ph, k, role))
  }

  lemma {:induction false} ForestIsSeen(ph: Phase, k: Kind, subs: seq<Sub>, roles: seq<Role>, id: nat)
    requires Forest(subs) && AllWellFormed(k, subs) && Sees(ph, k, roles)
    ensures id in VisitsRoles(ph, subs, roles) <==> id in AllIds(subs) && id !in AllUnseen(ph, k, subs)
    decreases subs, 1
  {
    if subs == [] {
      InRoles(ph, subs, roles, id);
    } else {
      var s := subs[0];
      assert s.obj < s;
      FirstVisited(ph, subs, roles, id);
      ForestIsSeen(ph, k, subs[1..], roles, id);
      TreeIsSeen(ph, s.obj, id);
      UnseenInTree(ph, s.obj);
      AllUnseenInTree(ph, k, subs[1..]);
      hide Visits, VisitsRoles;
    }
  }

  lemma KindSees(ph: Phase, k: Kind)
    requires !k.Device?
    ensures Sees(ph, k, [Childs] + Roles(ph, k))
  {
  }

  lemma {:induction false} TreeIsSeen(ph: Phase, o: Object, id: nat)
    requires Tree(o) && WellFormed(o) && !o.kind.Device?
    ensures id in Visits(ph, o) <==> id in Ids(o) && id !in Unseen(ph, o)
    decreases o, 2
  {
    KindSees(ph, o.kind);
    ForestIsSeen(ph, o.kind, o.subs, [Childs] + Roles(ph, o.kind), id);
    UnseenInTree(ph, o);
    hide VisitsRoles;
  }

  /** A phase visits every object of a device but for those in the lists it overlooks and below. */
  lemma DeviceVisitsExactly(ph: Phase, device: Object, id: nat)
    requires Tree(device) && WellFormed(device) && device.kind.Device?
    ensures id in DeviceVisits(ph, device) <==> id in Ids(device) && id !in Unseen(ph, device)
  {
    var a, b := [Childs] + Roles(ph, Device), DeviceRoles(ph);
    ForestIsSeen(ph, Device, device.subs, a + b, id);
    UnseenInTree(ph, device);
    InRoles(ph, device.subs, a, id);
    InRoles(ph, device.subs, b, id);
    InRoles(ph, device.subs, a + b, id);
    hide VisitsRoles;
    BothRoles(ph, device.subs, a, b, id);
  }

  lemma BothRoles(ph: Phase, subs: seq<Sub>, a: seq<Role>, b: seq<Role>, id: nat)
    ensures (exists k | 0 <= k < |a + b| :: id in VisitsRole(ph, subs, (a + b)[k])) <==>
            (exists k | 0 <= k < |a| :: id in VisitsRole(ph, subs, a[k]))
            || (exists k | 0 <= k < |b| :: id in VisitsRole(ph, subs, b[k]))
  {
    hide VisitsRole;
    if k :| 0 <= k < |a| && id in VisitsRole(ph, subs, a[k]) {
      assert (a + b)[k] == a[k];
    }
    if k :| 0 <= k < |b| && id in VisitsRole(ph, subs, b[k]) {
      assert (a + b)[|a| + k] == b[k];
    }
  }
}
