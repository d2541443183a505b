// In-place update of a bond, internal/provider/lag_resource.go: members and addresses
// are brought from what the state records to what the plan asks for by `ip` commands.
module Lag {
  import opened Wrappers

  type Intf = string

  // A Terraform attribute.
  datatype Attr<+T> = Null | Unknown | Known(value: T)

  datatype Link = Link(master: Option<Intf>, up: bool)
  type Links = map<Intf, Link>
  // An address of a link, with the text it is listed as.
  datatype Addr = Addr(listed: string, v6: bool, linkLocal: bool)
  // How an attribute's text is understood; None for what is not an address with a prefix
  // length. Several texts can stand for one address.
  type Parse = string -> Option<Addr>

  datatype Errno = NoSuchDevice | NoSuchAddress | Busy | Refused | Malformed

  datatype Model = Model(v4: Attr<string>, v6: Attr<string>, members: Attr<seq<Intf>>)

  predicate IsMalformed(text: Attr<string>, parse: Parse) {
    text.Known? && parse(text.value).None?
  }

  // A changed address that is planned is malformed.
  predicate NewlyMalformed(plan: Model, state: Model, parse: Parse) {
    (plan.v4 != state.v4 && IsMalformed(plan.v4, parse)) || (plan.v6 != state.v6 && IsMalformed(plan.v6, parse))
  }

  // ---------------------------------------------------------------- members

  function Difference(a: seq<Intf>, b: seq<Intf>): seq<Intf> {
    if a == [] then [] else if a[0] in b then Difference(a[1..], b) else [a[0]] + Difference(a[1..], b)
  }

  lemma {:induction false} DifferenceSnoc(a: seq<Intf>, x: Intf, b: seq<Intf>)
    ensures Difference(a + [x], b) == Difference(a, b) + if x in b then [] else [x]
  {
    if a != [] {
      assert (a + [x])[1..] == a[1..] + [x];
      DifferenceSnoc(a[1..], x, b);
    }
  }

  lemma {:induction false} InDifference(a: seq<Intf>, b: seq<Intf>, x: Intf)
    ensures x in Difference(a, b) <==> x in a && x !in b
  {
    if a != [] {
      InDifference(a[1..], b, x);
    }
  }

  method StringsDifference(a: seq<Intf>, b: seq<Intf>) returns (out: seq<Intf>)
    ensures out == Difference(a, b)
  {
    var present: map<Intf, bool> := map[];
    for i := 0 to |b|
      invariant forall x :: (x in present && present[x]) <==> x in b[..i]
    {
      present := present[b[i] := true];
    }
    assert b[..|b|] == b;
    out := [];
    for i := 0 to |a|
      invariant out == Difference(a[..i], b)
    {
      assert a[..i + 1] == a[..i] + [a[i]];
      DifferenceSnoc(a[..i], a[i], b);
      if !(a[i] in present && present[a[i]]) {
        out := out + [a[i]];
      }
    }
    assert a[..|a|] == a;
  }

  function Slice(members: Attr<seq<Intf>>): seq<Intf> {
    if members.Known? then members.value else []
  }

  function Members(links: Links, bond: Intf): set<Intf> {
    set i | i in links && links[i].master == Some(bond)
  }

  function Names(s: seq<Intf>): set<Intf> {
    set i | i in s
  }

  predicate Enslaves(before: Link, after: Link) {
    after.master.Some? && after.master != before.master
  }

  // A member that leaves the bond is also brought down.
  function Released(l: Link, bond: Intf): Link {
    Link(None, l.up && l.master != Some(bond))
  }

  // The link table after `gone` was released and `added` enslaved.
  function Reconciled(links: Links, gone: seq<Intf>, added: seq<Intf>, bond: Intf): (t: Links)
    ensures t.Keys == links.Keys
  {
    map i | i in links ::
      if i in added then Link(Some(bond), true)
      else if i in gone then Released(links[i], bond)
      else links[i]
  }

  lemma ReconciledTwice(links: Links, gone: seq<Intf>, added: seq<Intf>, bond: Intf)
    ensures Reconciled(Reconciled(links, gone, [], bond), [], added, bond) == Reconciled(links, gone, added, bond)
  {
  }

  lemma MemberAfterUpdate(links: Links, bond: Intf, state: seq<Intf>, plan: seq<Intf>, i: Intf)
    requires Names(Difference(plan, state)) <= links.Keys
    ensures
      i in Members(Reconciled(links, Difference(state, plan), Difference(plan, state), bond), bond)
      <==> if i in plan then i !in state || i in Members(links, bond) else i !in state && i in Members(links, bond)
  {
    InDifference(plan, state, i);
    InDifference(state, plan, i);
    assert i in Difference(plan, state) ==> i in Names(Difference(plan, state));
  }

  // If the members on record are still in the bond, an update leaves those that were
  // there, minus the ones taken off the list, plus everything planned.
  lemma MembersAfterUpdate(links: Links, bond: Intf, state: seq<Intf>, plan: seq<Intf>)
    requires Names(Difference(plan, state)) <= links.Keys
    ensures
      var after := Members(Reconciled(links, Difference(state, plan), Difference(plan, state), bond), bond);
      && after == (Members(links, bond) - (Names(state) - Names(plan))) + (Names(plan) - Names(state))
      && (Names(state) <= Members(links, bond) ==>
            after == (Members(links, bond) - (Names(state) - Names(plan))) + Names(plan))
  {
    forall i {
      MemberAfterUpdate(links, bond, state, plan, i);
    }
  }

  // ---------------------------------------------------------------- reading back

  // The managed members still in the bond; foreign members are never recorded.
  function Kept(managed: seq<Intf>, links: Links, bond: Intf): seq<Intf> {
    if managed == [] then []
    else if managed[0] in links && links[managed[0]].master == Some(bond) then [managed[0]] + Kept(managed[1..], links, bond)
    else Kept(managed[1..], links, bond)
  }

  lemma {:induction false} KeptIn(managed: seq<Intf>, links: Links, bond: Intf, i: Intf)
    ensures i in Kept(managed, links, bond) <==> i in managed && i in links && links[i].master == Some(bond)
  {
    if managed != [] {
      KeptIn(managed[1..], links, bond, i);
    }
  }

  lemma {:induction false} KeptAll(managed: seq<Intf>, links: Links, bond: Intf)
    ensures Kept(managed, links, bond) == managed <==> Names(managed) <= Members(links, bond)
    ensures |Kept(managed, links, bond)| <= |managed|
  {
    if managed != [] {
      KeptAll(managed[1..], links, bond);
      var kept := Kept(managed, links, bond);
      if kept == managed {
        assert |kept| == |managed|;
        assert kept[1..] == managed[1..];
      }
      assert Names(managed) == {managed[0]} + Names(managed[1..]);
    }
  }

  // An update reads back exactly the planned members if and only if the planned members
  // that were on record before had not left the bond: those are not enslaved again.
  lemma ReadsBackPlanIff(links: Links, bond: Intf, state: seq<Intf>, plan: seq<Intf>)
    requires Names(Difference(plan, state)) <= links.Keys
    ensures
      var after := Reconciled(links, Difference(state, plan), Difference(plan, state), bond);
      Kept(plan, after, bond) == plan <==> Names(plan) * Names(state) <= Members(links, bond)
  {
    var after := Reconciled(links, Difference(state, plan), Difference(plan, state), bond);
    MembersAfterUpdate(links, bond, state, plan);
    KeptAll(plan, after, bond);
  }

  lemma {:induction false} NothingMissing(plan: seq<Intf>, done: seq<Intf>)
    requires Names(plan) <= Names(done)
    ensures Difference(plan, done) == []
  {
    if plan != [] {
      assert plan[0] in Names(plan);
      NothingMissing(plan[1..], done);
    }
  }

  // Repeating an update that read back its plan issues no member command and changes nothing.
  lemma SecondUpdateIsQuiet(links: Links, bond: Intf, plan: seq<Intf>)
    ensures var gone, added := Difference(plan, plan), Difference(plan, plan);
      && |gone| + 3 * |added| == 0
      && Reconciled(links, gone, added, bond) == links
  {
    NothingMissing(plan, plan);
  }

  // ---------------------------------------------------------------- addresses

  predicate Visible(a: Addr, v6: bool) {
    a.v6 == v6 && !(v6 && a.linkLocal)
  }

  // The addresses of a family in listing order, without IPv6 link-local ones.
  function Shown(addrs: seq<Addr>, v6: bool): seq<Addr> {
    if addrs == [] then []
    else if Visible(addrs[0], v6) then [addrs[0]] + Shown(addrs[1..], v6)
    else Shown(addrs[1..], v6)
  }

  // What readLAG makes of a family: the first address listed, or what it was given.
  function ReadAddr(addrs: seq<Addr>, v6: bool, given: Attr<string>): Attr<string> {
    if Shown(addrs, v6) != [] then Known(Shown(addrs, v6)[0].listed) else given
  }

  // The address at k is the first one listed of the family, link-local IPv6 ones aside; there
  // is none if k is the end of the list.
  predicate IsFirst(addrs: seq<Addr>, v6: bool, k: nat) {
    && k <= |addrs|
    && (forall j :: 0 <= j < k ==> addrs[j].v6 != v6 || (addrs[j].v6 && addrs[j].linkLocal))
    && (k < |addrs| ==> addrs[k].v6 == v6 && !(addrs[k].v6 && addrs[k].linkLocal))
  }

  lemma {:induction false} FirstIsRead(addrs: seq<Addr>, v6: bool, given: Attr<string>, k: nat)
    requires IsFirst(addrs, v6, k)
    ensures ReadAddr(addrs, v6, given) == if k < |addrs| then Known(addrs[k].listed) else given
  {
    if k > 0 {
      FirstIsRead(addrs[1..], v6, given, k - 1);
    }
  }

  function Minus(addrs: seq<Addr>, gone: set<Addr>): seq<Addr> {
    if addrs == [] then []
    else if addrs[0] in gone then Minus(addrs[1..], gone)
    else [addrs[0]] + Minus(addrs[1..], gone)
  }

  // Deleting an address can take others of its family along.
  ghost predicate Deleted(addrs: seq<Addr>, a: Addr, rest: seq<Addr>) {
    exists gone: set<Addr> :: GoneWith(a, gone) && rest == Minus(addrs, gone)
  }

  predicate GoneWith(a: Addr, gone: set<Addr>) {
    a in gone && forall x :: x in gone ==> x.v6 == a.v6
  }

  // A new address can be listed anywhere.
  ghost predicate Added(addrs: seq<Addr>, a: Addr, result: seq<Addr>) {
    a !in addrs && exists k: nat | k <= |addrs| :: result == addrs[..k] + [a] + addrs[k..]
  }

  // `ip addr del` of the old address, if there is one, then `ip addr add` of the new one.
  ghost predicate Readdressed(addrs: seq<Addr>, before: Attr<string>, after: Attr<string>, result: seq<Addr>, parse: Parse) {
    !IsMalformed(before, parse) && !IsMalformed(after, parse) &&
    exists rest :: FirstDeleted(addrs, before, rest, parse) && ThenAdded(rest, after, result, parse)
  }

  ghost predicate FirstDeleted(addrs: seq<Addr>, before: Attr<string>, rest: seq<Addr>, parse: Parse)
    requires !IsMalformed(before, parse)
  {
    if before.Known? then Deleted(addrs, parse(before.value).value, rest) else rest == addrs
  }

  ghost predicate ThenAdded(rest: seq<Addr>, after: Attr<string>, result: seq<Addr>, parse: Parse)
    requires !IsMalformed(after, parse)
  {
    if after.Known? then Added(rest, parse(after.value).value, result) else result == rest
  }

  ghost predicate Changed(addrs: seq<Addr>, state: Attr<string>, plan: Attr<string>, result: seq<Addr>, parse: Parse) {
    if plan == state then result == addrs else Readdressed(addrs, state, plan, result, parse)
  }

  // The addresses there are besides the old one.
  function Others(addrs: seq<Addr>, before: Attr<string>, parse: Parse): seq<Addr> {
    if before.Known? && parse(before.value).Some? then Minus(addrs, {parse(before.value).value}) else addrs
  }

  lemma {:induction false} ShownConcat(a: seq<Addr>, b: seq<Addr>, v6: bool)
    ensures Shown(a + b, v6) == Shown(a, v6) + Shown(b, v6)
  {
    if a == [] {
      assert a + b == b;
    } else {
      assert (a + b)[1..] == a[1..] + b;
      ShownConcat(a[1..], b, v6);
    }
  }

  lemma ShownInserted(front: seq<Addr>, a: Addr, back: seq<Addr>, v6: bool)
    requires !Visible(a, v6)
    ensures Shown(front + [a] + back, v6) == Shown(front + back, v6)
  {
    assert [a][1..] == [] && Shown([a], v6) == [];
    ShownConcat(front + [a], back, v6);
    ShownConcat(front, [a], v6);
    ShownConcat(front, back, v6);
  }

  lemma AddedUnseen(addrs: seq<Addr>, a: Addr, result: seq<Addr>, v6: bool)
    requires Added(addrs, a, result) && !Visible(a, v6)
    ensures Shown(result, v6) == Shown(addrs, v6)
  {
    var k: nat :| k <= |addrs| && result == addrs[..k] + [a] + addrs[k..];
    assert addrs == addrs[..k] + addrs[k..];
    ShownInserted(addrs[..k], a, addrs[k..], v6);
  }

  lemma DeletedUnseen(addrs: seq<Addr>, a: Addr, rest: seq<Addr>, v6: bool)
    requires Deleted(addrs, a, rest) && a.v6 != v6
    ensures Shown(rest, v6) == Shown(addrs, v6)
  {
    var gone :| GoneWith(a, gone) && rest == Minus(addrs, gone);
    ShownMinus(addrs, gone, v6);
  }

  lemma {:induction false} MinusIn(addrs: seq<Addr>, gone: set<Addr>, x: Addr)
    ensures x in Minus(addrs, gone) <==> x in addrs && x !in gone
  {
    if addrs != [] {
      MinusIn(addrs[1..], gone, x);
    }
  }

  lemma {:induction false} ShownIn(addrs: seq<Addr>, v6: bool, x: Addr)
    ensures x in Shown(addrs, v6) <==> x in addrs && Visible(x, v6)
  {
    if addrs != [] {
      ShownIn(addrs[1..], v6, x);
    }
  }

  lemma {:induction false} MinusNothing(addrs: seq<Addr>, gone: set<Addr>)
    requires forall x :: x in addrs ==> x !in gone
    ensures Minus(addrs, gone) == addrs
  {
    if addrs != [] {
      MinusNothing(addrs[1..], gone);
    }
  }

  lemma {:induction false} ShownMinus(addrs: seq<Addr>, gone: set<Addr>, v6: bool)
    requires forall x :: x in gone ==> !Visible(x, v6)
    ensures Shown(Minus(addrs, gone), v6) == Shown(addrs, v6)
  {
    if addrs != [] {
      ShownMinus(addrs[1..], gone, v6);
      assert ([addrs[0]] + Minus(addrs[1..], gone))[1..] == Minus(addrs[1..], gone);
    }
  }

  // Readdressing within one family leaves the other as it was.
  lemma OtherFamilyUnchanged(addrs: seq<Addr>, before: Attr<string>, after: Attr<string>, result: seq<Addr>,
                             v6: bool, parse: Parse)
    requires Readdressed(addrs, before, after, result, parse)
    requires before.Known? ==> parse(before.value).value.v6 != v6
    requires after.Known? ==> parse(after.value).value.v6 != v6
    ensures Shown(result, v6) == Shown(addrs, v6)
  {
    var rest :| FirstDeleted(addrs, before, rest, parse) && ThenAdded(rest, after, result, parse);
    if before.Known? {
      DeletedUnseen(addrs, parse(before.value).value, rest, v6);
    }
    if after.Known? {
      AddedUnseen(rest, parse(after.value).value, result, v6);
    }
  }

  // The new address is there, the old one is not, unless they are the same, and nothing
  // else has come.
  lemma ReaddressedHas(addrs: seq<Addr>, before: Attr<string>, after: Attr<string>, result: seq<Addr>, parse: Parse, x: Addr)
    requires Readdressed(addrs, before, after, result, parse)
    ensures after.Known? && parse(after.value) == Some(x) ==> x in result
    ensures !(after.Known? && parse(after.value) == Some(x)) && x in result ==> x in Others(addrs, before, parse)
    ensures x in addrs && (before.Known? ==> parse(before.value).value.v6 != x.v6) ==> x in result
  {
    var rest :| FirstDeleted(addrs, before, rest, parse) && ThenAdded(rest, after, result, parse);
    if before.Known? {
      var gone :| GoneWith(parse(before.value).value, gone) && rest == Minus(addrs, gone);
      MinusIn(addrs, gone, x);
      MinusIn(addrs, {parse(before.value).value}, x);
    }
    if after.Known? {
      var k: nat :| k <= |rest| && result == rest[..k] + [parse(after.value).value] + rest[k..];
      assert rest == rest[..k] + rest[k..];
    }
  }

  // Every address is listed as a text that stands for it.
  ghost predicate ListedTruly(addrs: seq<Addr>, parse: Parse) {
    forall x :: x in addrs ==> parse(x.listed) == Some(x)
  }

  ghost predicate ReadsBack(addrs: seq<Addr>, before: Attr<string>, now: string, result: seq<Addr>, v6: bool, parse: Parse) {
    Readdressed(addrs, before, Known(now), result, parse) ==> ReadAddr(result, v6, Known(now)) == Known(now)
  }

  lemma AddedLast(addrs: seq<Addr>, before: Attr<string>, now: string, parse: Parse) returns (result: seq<Addr>)
    requires !IsMalformed(before, parse) && parse(now).Some? && parse(now).value !in Others(addrs, before, parse)
    ensures result == Others(addrs, before, parse) + [parse(now).value]
    ensures Readdressed(addrs, before, Known(now), result, parse)
  {
    var rest, a := Others(addrs, before, parse), parse(now).value;
    result := rest + [a];
    if before.Known? {
      var gone := {parse(before.value).value};
      assert GoneWith(parse(before.value).value, gone) && rest == Minus(addrs, gone);
      assert Deleted(addrs, parse(before.value).value, rest);
    }
    assert result == rest[..|rest|] + [a] + rest[|rest|..];
    assert Added(rest, a, result);
    assert FirstDeleted(addrs, before, rest, parse) && ThenAdded(rest, Known(now), result, parse);
  }

  // The planned text is sure to be read back for the attribute of a family, wherever the
  // kernel lists the new address, if and only if the bond has no other address of that
  // family and the new one, if it is of that family, is listed as it was planned.
  lemma NewAddressReadBackIff(addrs: seq<Addr>, before: Attr<string>, now: string, v6: bool, parse: Parse)
    requires !IsMalformed(before, parse) && ListedTruly(addrs, parse)
    requires parse(now).Some? && parse(now).value !in Others(addrs, before, parse)
    ensures (forall result :: ReadsBack(addrs, before, now, result, v6, parse))
      <==> Shown(Others(addrs, before, parse), v6) == [] && (Visible(parse(now).value, v6) ==> parse(now).value.listed == now)
  {
    var rest, a := Others(addrs, before, parse), parse(now).value;
    if Shown(rest, v6) == [] && (Visible(a, v6) ==> a.listed == now) {
      forall result | Readdressed(addrs, before, Known(now), result, parse)
        ensures ReadAddr(result, v6, Known(now)) == Known(now)
      {
        if Shown(result, v6) != [] {
          var x := Shown(result, v6)[0];
          ShownIn(result, v6, x);
          ReaddressedHas(addrs, before, Known(now), result, parse, x);
          ShownIn(rest, v6, x);
        }
      }
    } else {
      var result := AddedLast(addrs, before, now, parse);
      ShownConcat(rest, [a], v6);
      assert [a][1..] == [];
      var x := Shown(result, v6)[0];
      if Shown(rest, v6) != [] {
        assert x == Shown(rest, v6)[0];
        ShownIn(rest, v6, x);
        InOthers(addrs, before, parse, x);
      }
      assert !ReadsBack(addrs, before, now, result, v6, parse);
    }
  }

  lemma InOthers(addrs: seq<Addr>, before: Attr<string>, parse: Parse, x: Addr)
    ensures x in Others(addrs, before, parse) ==> x in addrs
  {
    if before.Known? && parse(before.value).Some? {
      MinusIn(addrs, {parse(before.value).value}, x);
    }
  }

  // A member to be enslaved does not exist.
  predicate LacksMember(plan: Model, state: Model, links: Links) {
    !plan.members.Unknown? && exists i :: i in Slice(plan.members) && i !in Slice(state.members) && i !in links
  }

  lemma LacksMemberIff(plan: Model, state: Model, links: Links)
    requires !plan.members.Unknown?
    ensures LacksMember(plan, state, links) <==> !(Names(Difference(Slice(plan.members), Slice(state.members))) <= links.Keys)
  {
    forall i
      ensures i in Difference(Slice(plan.members), Slice(state.members)) <==> i in Slice(plan.members) && i !in Slice(state.members)
    {
      InDifference(Slice(plan.members), Slice(state.members), i);
    }
  }

  // One family after the other.
  ghost predicate Updated(addrs: seq<Addr>, plan: Model, state: Model, result: seq<Addr>, parse: Parse) {
    exists four :: Changed(addrs, state.v4, plan.v4, four, parse) && Changed(four, state.v6, plan.v6, result, parse)
  }

  predicate Plans(plan: Model, a: Addr, parse: Parse) {
    (plan.v4.Known? && parse(plan.v4.value) == Some(a)) || (plan.v6.Known? && parse(plan.v6.value) == Some(a))
  }

  // A changed address leaves nothing behind: no address of the old text, unless it is
  // planned as well. The planned IPv6 address is there, and so is the planned IPv4 one.
  lemma NoLeftover(addrs: seq<Addr>, plan: Model, state: Model, result: seq<Addr>, parse: Parse, a: Addr)
    requires Updated(addrs, plan, state, result, parse)
    ensures plan.v4 != state.v4 && state.v4.Known? && parse(state.v4.value) == Some(a) && a in result ==> Plans(plan, a, parse)
    ensures plan.v6 != state.v6 && state.v6.Known? && parse(state.v6.value) == Some(a) && a in result ==> Plans(plan, a, parse)
    ensures plan.v6 != state.v6 && plan.v6.Known? && parse(plan.v6.value) == Some(a) ==> a in result
    ensures
      plan.v4 != state.v4 && plan.v4.Known? && parse(plan.v4.value) == Some(a)
      && (plan.v6 == state.v6 || !state.v6.Known? || parse(state.v6.value).value.v6 != a.v6)
      ==> a in result
  {
    var four :| Changed(addrs, state.v4, plan.v4, four, parse) && Changed(four, state.v6, plan.v6, result, parse);
    if plan.v4 != state.v4 {
      ReaddressedHas(addrs, state.v4, plan.v4, four, parse, a);
      if state.v4.Known? {
        MinusIn(addrs, {parse(state.v4.value).value}, a);
      }
    }
    if plan.v6 != state.v6 {
      ReaddressedHas(four, state.v6, plan.v6, result, parse, a);
      InOthers(four, state.v6, parse, a);
      if state.v6.Known? {
        MinusIn(four, {parse(state.v6.value).value}, a);
      }
    }
  }

  // ---------------------------------------------------------------- the update

  class LAG {
    const bond: Intf
    const parse: Parse
    var links: Links
    var addrs: seq<Addr>
    ghost var memberCommands: nat
    ghost var refusals: nat // commands refused, other than for a missing device or address or a busy member
    ghost var looks: nat    // `ip ... show` commands

    constructor (bond: Intf, parse: Parse, links: Links, addrs: seq<Addr>)
      ensures this.bond == bond && this.parse == parse && this.links == links && this.addrs == addrs && memberCommands == 0 && refusals == 0 && looks == 0
    {
      this.bond, this.parse, this.links, this.addrs, memberCommands, refusals, looks := bond, parse, links, addrs, 0, 0, 0;
    }

    // `ip link set dev <intf> ...`: a missing device is reported as such, bonding takes no
    // member that is up, anything else may be refused, and a command that fails changes
    // nothing.
    method SetLink(intf: Intf, link: Link -> Link) returns (err: Option<Errno>)
      modifies this`links, this`memberCommands, this`refusals
      ensures err.None? ==> intf in old(links) && links == old(links)[intf := link(old(links)[intf])]
      ensures err.Some? ==> links == old(links)
      ensures err == Some(NoSuchDevice) <==> intf !in old(links)
      ensures err == Some(Busy) <==> intf in old(links) && Enslaves(old(links)[intf], link(old(links)[intf])) && old(links)[intf].up
      ensures memberCommands == old(memberCommands) + 1
      ensures err in {None, Some(NoSuchDevice), Some(Busy), Some(Refused)}
      ensures refusals == old(refusals) + if err == Some(Refused) then 1 else 0
    {
      memberCommands := memberCommands + 1;
      if intf !in links {
        return Some(NoSuchDevice);
      }
      if Enslaves(links[intf], link(links[intf])) && links[intf].up {
        return Some(Busy);
      }
      var refused: bool := *;
      if refused {
        refusals := refusals + 1;
        return Some(Refused);
      }
      links := links[intf := link(links[intf])];
      err := None;
    }

    method AddrDel(text: string) returns (err: Option<Errno>)
      modifies this`addrs, this`refusals
      ensures err.None? ==> parse(text).Some? && Deleted(old(addrs), parse(text).value, addrs)
      ensures err.Some? ==> addrs == old(addrs)
      ensures err == Some(NoSuchAddress) ==> parse(text).Some? && parse(text).value !in addrs
      ensures err != Some(NoSuchDevice)
      ensures refusals == old(refusals) + if err.None? || err == Some(NoSuchAddress) then 0 else 1
    {
      if parse(text).None? {
        refusals := refusals + 1;
        return Some(Refused);
      }
      var a := parse(text).value;
      if a !in addrs {
        return Some(NoSuchAddress);
      }
      var refused: bool := *;
      if refused {
        refusals := refusals + 1;
        return Some(Refused);
      }
      var secondaries: set<Addr> := *;
      var gone := {a} + set x | x in secondaries && x.v6 == a.v6;
      assert GoneWith(a, gone);
      addrs := Minus(addrs, gone);
      err := None;
    }

    method AddrAdd(text: string) returns (err: Option<Errno>)
      requires parse(text).Some?
      modifies this`addrs, this`refusals
      ensures err.None? ==> Added(old(addrs), parse(text).value, addrs)
      ensures err.Some? ==> addrs == old(addrs)
      ensures refusals == old(refusals) + if err.None? then 0 else 1
    {
      var a := parse(text).value;
      var refused: bool := *;
      if refused || a in addrs {
        refusals := refusals + 1;
        return Some(Refused);
      }
      var k: nat :| k <= |addrs|;
      addrs := addrs[..k] + [a] + addrs[k..];
      err := None;
    }

    method EnslaveMember(intf: Intf) returns (err: Option<Errno>)
      modifies this`links, this`memberCommands, this`refusals
      ensures err.None? ==> intf in old(links) && links == old(links)[intf := Link(Some(bond), true)]
      ensures err.None? ==> memberCommands == old(memberCommands) + 3
      ensures refusals >= old(refusals) && (err.Some? <==> refusals > old(refusals) || intf !in old(links))
      ensures links.Keys == old(links).Keys && forall i :: i in links && i != intf ==> links[i] == old(links)[i]
    {
      err := SetLink(intf, (l: Link) => l.(up := false));
      if err.Some? {
        return;
      }
      err := SetLink(intf, (l: Link) => l.(master := Some(bond)));
      if err.Some? {
        return;
      }
      err := SetLink(intf, (l: Link) => l.(up := true));
    }

    // A member that no longer exists counts as released.
    method ReleaseMember(intf: Intf) returns (err: Option<Errno>)
      modifies this`links, this`memberCommands, this`refusals
      ensures err.None? ==>
        links == if intf in old(links) then old(links)[intf := Released(old(links)[intf], bond)] else old(links)
      ensures err.Some? ==> links == old(links)
      ensures memberCommands == old(memberCommands) + 1
      ensures refusals >= old(refusals) && (err.Some? <==> refusals > old(refusals))
    {
      err := SetLink(intf, (l: Link) => Released(l, bond));
      if err == Some(NoSuchDevice) {
        err := None;
      }
    }

    method ReconcileAddr(before: Attr<string>, after: Attr<string>) returns (err: Option<Errno>)
      modifies this`addrs, this`refusals
      ensures err.None? ==> Readdressed(old(addrs), before, after, addrs, parse)
      ensures refusals >= old(refusals) && (err.Some? <==> refusals > old(refusals) || IsMalformed(after, parse))
    {
      if before.Known? {
        err := AddrDel(before.value);
        if err.Some? && err.value != NoSuchDevice && err.value != NoSuchAddress {
          return;
        }
        if err.Some? {
          NothingDeleted(addrs, parse(before.value).value);
        }
      }
      ghost var rest := addrs;
      assert !IsMalformed(before, parse) && FirstDeleted(old(addrs), before, rest, parse);
      err := None;
      if after.Known? {
        if parse(after.value).None? {
          return Some(Malformed);
        }
        err := AddrAdd(after.value);
      }
      assert err.None? ==> ThenAdded(rest, after, addrs, parse);
    }

    // `ip ... show`
    method Show() returns (ok: bool)
      modifies this`refusals, this`looks
      ensures refusals == old(refusals) + (if ok then 0 else 1) && looks == old(looks) + 1
    {
      ok, looks := *, looks + 1;
      if !ok {
        refusals := refusals + 1;
      }
    }

    // The incoming set decides what is recorded; null stays null.
    method ReadLAG(given: Model) returns (r: Result<Model, Errno>)
      modifies this`refusals, this`looks
      ensures refusals == old(refusals) + if r.Ok? then 0 else 1
      ensures r.Ok? ==> looks == old(looks) + if given.members.Known? then 3 else 2
      ensures r.Ok? ==>
        && r.value.v4 == ReadAddr(addrs, false, given.v4) && r.value.v6 == ReadAddr(addrs, true, given.v6)
        && r.value.members == if given.members.Known? then Known(Kept(given.members.value, links, bond)) else Null
    {
      var model := given;
      var ok := Show();
      if ok {
        ok := Show();
      }
      if !ok {
        return Err(Refused);
      }
      var shown := Shown(addrs, false);
      if shown != [] {
        model := model.(v4 := Known(shown[0].listed));
      }
      shown := Shown(addrs, true);
      if shown != [] {
        model := model.(v6 := Known(shown[0].listed));
      }
      if !given.members.Known? {
        model := model.(members := Null);
      } else {
        ok := Show();
        if !ok {
          return Err(Refused);
        }
        var kept := [];
        var managed := given.members.value;
        for i := 0 to |managed|
          invariant kept + Kept(managed[i..], links, bond) == Kept(managed, links, bond)
        {
          assert managed[i..][0] == managed[i] && managed[i..][1..] == managed[i + 1..];
          if managed[i] in links && links[managed[i]].master == Some(bond) {
            kept := kept + [managed[i]];
          }
        }
        assert kept + Kept([], links, bond) == kept;
        model := model.(members := Known(kept));
      }
      r := Ok(model);
    }

    method ReleaseAll(gone: seq<Intf>) returns (err: Option<Errno>)
      modifies this`links, this`memberCommands, this`refusals
      ensures err.None? ==> links == Reconciled(old(links), gone, [], bond)
      ensures err.None? ==> memberCommands == old(memberCommands) + |gone|
      ensures refusals >= old(refusals) && (err.Some? <==> refusals > old(refusals))
      ensures links.Keys == old(links).Keys && forall i :: i in links && i !in gone ==> links[i] == old(links)[i]
    {
      for k := 0 to |gone|
        invariant links == Reconciled(old(links), gone[..k], [], bond)
        invariant memberCommands == old(memberCommands) + k && refusals == old(refusals)
      {
        assert gone[..k + 1] == gone[..k] + [gone[k]];
        err := ReleaseMember(gone[k]);
        if err.Some? {
          return;
        }
      }
      assert gone[..|gone|] == gone;
      err := None;
    }

    method EnslaveAll(added: seq<Intf>) returns (err: Option<Errno>)
      modifies this`links, this`memberCommands, this`refusals
      ensures err.None? ==> links == Reconciled(old(links), [], added, bond) && Names(added) <= links.Keys
      ensures err.None? ==> memberCommands == old(memberCommands) + 3 * |added|
      ensures refusals >= old(refusals) && (err.Some? <==> refusals > old(refusals) || !(Names(added) <= old(links).Keys))
      ensures links.Keys == old(links).Keys && forall i :: i in links && i !in added ==> links[i] == old(links)[i]
    {
      for k := 0 to |added|
        invariant links == Reconciled(old(links), [], added[..k], bond) && Names(added[..k]) <= links.Keys
        invariant memberCommands == old(memberCommands) + 3 * k && refusals == old(refusals)
      {
        assert added[..k + 1] == added[..k] + [added[k]];
        err := EnslaveMember(added[k]);
        if err.Some? {
          return;
        }
      }
      assert added[..|added|] == added;
      err := None;
    }

    // Releases come first, so that an interface moving between bonds is free again.
    method UpdateMembers(planMembers: seq<Intf>, stateMembers: seq<Intf>) returns (err: Option<Errno>)
      modifies this`links, this`memberCommands, this`refusals
      ensures links.Keys == old(links).Keys
      ensures forall i :: i in links && i !in planMembers && i !in stateMembers ==> links[i] == old(links)[i]
      ensures err.None? ==>
        var gone, added := Difference(stateMembers, planMembers), Difference(planMembers, stateMembers);
        && links == Reconciled(old(links), gone, added, bond) && Names(added) <= links.Keys
        && memberCommands == old(memberCommands) + |gone| + 3 * |added|
      ensures refusals >= old(refusals)
      ensures err.Some? <==> refusals > old(refusals) || !(Names(Difference(planMembers, stateMembers)) <= old(links).Keys)
    {
      var gone := StringsDifference(stateMembers, planMembers);
      var added := StringsDifference(planMembers, stateMembers);
      forall i
        ensures i in added <==> i in planMembers && i !in stateMembers
        ensures i in gone <==> i in stateMembers && i !in planMembers
      {
        InDifference(planMembers, stateMembers, i);
        InDifference(stateMembers, planMembers, i);
      }
      err := ReleaseAll(gone);
      if err.Some? {
        return;
      }
      err := EnslaveAll(added);
      ReconciledTwice(old(links), gone, added, bond);
    }

    method UpdateAddrs(plan: Model, state: Model) returns (err: Option<Errno>)
      modifies this`addrs, this`refusals
      ensures err.None? ==> Updated(old(addrs), plan, state, addrs, parse)
      ensures refusals >= old(refusals)
      ensures err.Some? <==> refusals > old(refusals) || NewlyMalformed(plan, state, parse)
    {
      if plan.v4 != state.v4 {
        err := ReconcileAddr(state.v4, plan.v4);
        if err.Some? {
          return;
        }
      }
      ghost var four := addrs;
      assert Changed(old(addrs), state.v4, plan.v4, four, parse);
      if plan.v6 != state.v6 {
        err := ReconcileAddr(state.v6, plan.v6);
        return;
      }
      err := None;
    }

    method Update(plan: Model, state: Model) returns (r: Result<Model, Errno>)
      modifies this
      // It fails exactly on a refused command, a malformed new address or a missing new
      // member; a missing old address or released member does not count.
      ensures refusals >= old(refusals)
      ensures r.Err? <==> refusals > old(refusals) || NewlyMalformed(plan, state, parse) || LacksMember(plan, state, old(links))
      // Interfaces neither planned nor on record are left alone, whatever fails.
      ensures links.Keys == old(links).Keys
      ensures forall i :: i in links && i !in Slice(plan.members) && i !in Slice(state.members) ==>
        links[i] == old(links)[i]
      ensures r.Ok? && !plan.members.Unknown? ==>
        var gone, added := Difference(Slice(state.members), Slice(plan.members)),
                           Difference(Slice(plan.members), Slice(state.members));
        && links == Reconciled(old(links), gone, added, bond) && Names(added) <= links.Keys
        && memberCommands == old(memberCommands) + |gone| + 3 * |added|
      ensures r.Ok? && plan.members.Unknown? ==> links == old(links) && memberCommands == old(memberCommands)
      // What it saves has been looked up.
      ensures r.Ok? ==> looks == old(looks) + if plan.members.Known? then 3 else 2
      // No address of a changed text is left over.
      ensures r.Ok? ==> Updated(old(addrs), plan, state, addrs, parse)
      ensures r.Ok? && plan.v4 != state.v4 && state.v4.Known? && parse(state.v4.value).Some? ==>
        parse(state.v4.value).value !in addrs || Plans(plan, parse(state.v4.value).value, parse)
      ensures r.Ok? && plan.v6 != state.v6 && state.v6.Known? && parse(state.v6.value).Some? ==>
        parse(state.v6.value).value !in addrs || Plans(plan, parse(state.v6.value).value, parse)
      ensures r.Ok? ==>
        && r.value.v4 == ReadAddr(addrs, false, plan.v4) && r.value.v6 == ReadAddr(addrs, true, plan.v6)
        && r.value.members == if plan.members.Known? then Known(Kept(plan.members.value, links, bond)) else Null
      ensures r.Ok? && plan.members.Known? ==>
        (r.value.members == plan.members <==>
          Names(plan.members.value) * Names(Slice(state.members)) <= Members(old(links), bond))
    {
      var err := UpdateAddrs(plan, state);
      if err.Some? {
        return Err(err.value);
      }
      forall a {
        NoLeftover(old(addrs), plan, state, addrs, parse, a);
      }
      if !plan.members.Unknown? {
        LacksMemberIff(plan, state, links);
        err := UpdateMembers(Slice(plan.members), Slice(state.members));
        if err.Some? {
          return Err(err.value);
        }
        ReadsBackPlanIff(old(links), bond, Slice(state.members), Slice(plan.members));
      }
      r := ReadLAG(plan);
    }

    // The next apply of a plan whose members were read back adds no member command to those
    // of the first; when all of the plan was read back, it changes nothing and reads the same.
    method UpdateTwice(plan: Model, state: Model) returns (once: Result<Model, Errno>, twice: Result<Model, Errno>)
      requires plan.members.Known?
      modifies this
      ensures once.Ok? && twice.Ok? && once.value.members == plan.members ==>
        var gone, added := Difference(Slice(state.members), plan.members.value),
                           Difference(plan.members.value, Slice(state.members));
        && links == Reconciled(old(links), gone, added, bond)
        && memberCommands == old(memberCommands) + |gone| + 3 * |added|
        && twice.value.members == plan.members
      ensures once.Ok? && twice.Ok? ==> looks == old(looks) + 6
      ensures once.Ok? && twice.Ok? && once.value == plan ==>
        twice.value == plan && Updated(old(addrs), plan, state, addrs, parse)
    {
      once := Update(plan, state);
      twice := once;
      if once.Ok? {
        ghost var between := links;
        twice := Update(plan, once.value);
        if twice.Ok? && once.value.members == plan.members {
          SecondUpdateIsQuiet(between, bond, plan.members.value);
        }
      }
    }
  }

  lemma NothingDeleted(addrs: seq<Addr>, a: Addr)
    requires a !in addrs
    ensures Deleted(addrs, a, addrs)
  {
    MinusNothing(addrs, {a});
    assert GoneWith(a, {a});
  }
}
