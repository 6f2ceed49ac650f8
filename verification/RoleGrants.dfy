/** Role grants to groups, and to the copies of the groups that are embedded in the users' accounts. */
module RoleGrants {
  import opened Basics

  datatype Group = Group(id: string, name: string, lspId: string, roles: seq<string>)

  /** A group as embedded in an account; its roles may be missing. */
  datatype Copy = Copy(id: string, name: string, roles: Option<seq<string>>)
  datatype Account = Account(accountType: Option<string>, groups: Option<seq<Copy>>)
  datatype User = User(firstName: Option<string>, lastName: Option<string>, accounts: Option<seq<Account>>)
  datatype Directory = Directory(groups: seq<Group>, users: seq<User>)

  /** The exception of reading a field that is not there. */
  datatype Error = NotThere

  function Roles(roles: seq<string>): set<string> {
    set r | r in roles
  }

  function Count(roles: seq<string>, role: string): nat {
    multiset(roles)[role]
  }

  // ----- Adding and removing roles -----

  /** $addToSet, and the test with indexOf before a push. */
  function Add(roles: seq<string>, role: string): (r: seq<string>)
    ensures Roles(r) == Roles(roles) + {role}
  {
    if role in roles then roles else roles + [role]
  }

  function AddAll(roles: seq<string>, news: seq<string>): (r: seq<string>)
    ensures Roles(r) == Roles(roles) + Roles(news)
    decreases news
  {
    if news == [] then roles
    else
      var r := AddAll(Add(roles, news[0]), news[1..]);
      assert Roles(news) == {news[0]} + Roles(news[1..]);
      r
  }

  /** Granting keeps the roles that are there, in place and as often as they are, and puts each new one behind them
      once. */
  lemma {:induction false} AddedRoles(roles: seq<string>, news: seq<string>, x: string)
    ensures roles <= AddAll(roles, news)
    ensures Count(AddAll(roles, news), x) == if x in roles then Count(roles, x) else if x in news then 1 else 0
    decreases news
  {
    if news != [] {
      AddedRoles(Add(roles, news[0]), news[1..], x);
      assert news == [news[0]] + news[1..];
    }
  }

  /** $pullAll, and the filter on a copy. */
  function Remove(roles: seq<string>, role: string): (r: seq<string>)
    ensures forall x :: x in r <==> x in roles && x != role
  {
    if roles == [] then []
    else if roles[0] == role then Remove(roles[1..], role)
    else [roles[0]] + Remove(roles[1..], role)
  }

  lemma {:induction false} RemoveKeepsOthers(roles: seq<string>, role: string, other: string)
    requires other != role
    ensures Count(Remove(roles, role), other) == Count(roles, other)
  {
    if roles != [] {
      RemoveKeepsOthers(roles[1..], role, other);
      assert roles == [roles[0]] + roles[1..];
    }
  }

  /** The roles that stay keep their order. */
  lemma {:induction false} RemoveKeepsOrder(roles1: seq<string>, roles2: seq<string>, role: string)
    ensures Remove(roles1 + roles2, role) == Remove(roles1, role) + Remove(roles2, role)
  {
    if roles1 == [] {
      assert roles1 + roles2 == roles2;
    } else {
      assert (roles1 + roles2)[1..] == roles1[1..] + roles2;
      RemoveKeepsOrder(roles1[1..], roles2, role);
    }
  }

  // ----- Coherence of the embedded copies -----

  /** `g` is embedded in some account of some user. */
  ghost predicate Embeds(users: seq<User>, g: Copy) {
    exists u, a :: u in users && a in u.accounts.GetOr([]) && g in a.groups.GetOr([])
  }

  /** The copy carries the name and, as a set, the roles of its source group. */
  ghost predicate Agrees(g: Copy, source: Group) {
    g.id == source.id && g.name == source.name && Roles(g.roles.GetOr([])) == Roles(source.roles)
  }

  ghost predicate HasSource(g: Copy, groups: seq<Group>) {
    exists i :: 0 <= i < |groups| && Agrees(g, groups[i])
  }

  ghost predicate Coherent(d: Directory) {
    forall g :: Embeds(d.users, g) && g.roles.Some? ==> HasSource(g, d.groups)
  }

  ghost predicate DistinctIds(groups: seq<Group>) {
    forall i, j :: 0 <= i < j < |groups| ==> groups[i].id != groups[j].id
  }

  // ----- Rewriting every embedded copy -----

  function MapCopies(gs: seq<Copy>, f: Copy -> Copy): (r: seq<Copy>)
    ensures |r| == |gs| && forall k :: 0 <= k < |gs| ==> r[k] == f(gs[k])
  {
    seq(|gs|, k requires 0 <= k < |gs| => f(gs[k]))
  }

  function MapAccount(a: Account, f: Copy -> Copy): Account {
    if a.groups.None? then a else a.(groups := Some(MapCopies(a.groups.value, f)))
  }

  function MapAccounts(accounts: seq<Account>, f: Copy -> Copy): (r: seq<Account>)
    ensures |r| == |accounts| && forall k :: 0 <= k < |accounts| ==> r[k] == MapAccount(accounts[k], f)
  {
    seq(|accounts|, k requires 0 <= k < |accounts| => MapAccount(accounts[k], f))
  }

  function MapUser(u: User, f: Copy -> Copy): User {
    if u.accounts.None? then u else u.(accounts := Some(MapAccounts(u.accounts.value, f)))
  }

  function MapUsers(users: seq<User>, f: Copy -> Copy): (r: seq<User>)
    ensures |r| == |users| && forall k :: 0 <= k < |users| ==> r[k] == MapUser(users[k], f)
  {
    seq(|users|, k requires 0 <= k < |users| => MapUser(users[k], f))
  }

  lemma EmbedsForward(users: seq<User>, f: Copy -> Copy, g: Copy)
    requires Embeds(users, g)
    ensures Embeds(MapUsers(users, f), f(g))
  {
  }

  /** Every copy after the rewriting is the rewriting of a copy. */
  lemma EmbedsBackward(users: seq<User>, f: Copy -> Copy, g': Copy) returns (g: Copy)
    requires Embeds(MapUsers(users, f), g')
    ensures Embeds(users, g) && f(g) == g'
  {
    var users' := MapUsers(users, f);
    var u', a' :| u' in users' && a' in u'.accounts.GetOr([]) && g' in a'.groups.GetOr([]);
    var i :| 0 <= i < |users'| && users'[i] == u';
    var j :| 0 <= j < |u'.accounts.value| && u'.accounts.value[j] == a';
    var k :| 0 <= k < |a'.groups.value| && a'.groups.value[k] == g';
    var u := users[i];
    var a := u.accounts.value[j];
    g := a.groups.value[k];
    assert u in users && a in u.accounts.GetOr([]) && g in a.groups.GetOr([]);
  }

  // ----- Granting roles to the group of a name -----

  /** updateOne: the first group of the name. */
  ghost predicate IsFirst(groups: seq<Group>, name: string, i: nat) {
    i < |groups| && groups[i].name == name && forall j :: 0 <= j < i ==> groups[j].name != name
  }

  function GrantGroups(groups: seq<Group>, name: string, news: seq<string>): (r: seq<Group>)
    ensures |r| == |groups|
  {
    if groups == [] then []
    else if groups[0].name == name then [groups[0].(roles := AddAll(groups[0].roles, news))] + groups[1..]
    else [groups[0]] + GrantGroups(groups[1..], name, news)
  }

  lemma {:induction false} GrantedGroups(groups: seq<Group>, name: string, news: seq<string>, i: nat)
    requires i < |groups|
    ensures GrantGroups(groups, name, news)[i] ==
            if IsFirst(groups, name, i) then groups[i].(roles := AddAll(groups[i].roles, news)) else groups[i]
  {
    if groups[0].name != name && i > 0 {
      GrantedGroups(groups[1..], name, news, i - 1);
      assert IsFirst(groups, name, i) <==> IsFirst(groups[1..], name, i - 1) by {
        assert forall j :: 0 <= j < i - 1 ==> groups[1..][j] == groups[j + 1];
        assert forall j :: 1 <= j < i ==> groups[j] == groups[1..][j - 1];
      }
    }
  }

  function GrantCopy(name: string, news: seq<string>): Copy -> Copy {
    (g: Copy) => if g.name == name && g.roles.Some? then g.(roles := Some(AddAll(g.roles.value, news))) else g
  }

  function Known(text: Option<string>): Option<string> {
    if text.GetOr("") == "" then Some("Unknown") else text
  }

  /** The migration also fills in missing names and account types. */
  function FillAccounts(accounts: seq<Account>): (r: seq<Account>)
    ensures |r| == |accounts|
    ensures forall k :: 0 <= k < |r| ==> r[k] == accounts[k].(accountType := Known(accounts[k].accountType))
  {
    seq(|accounts|, k requires 0 <= k < |accounts| => accounts[k].(accountType := Known(accounts[k].accountType)))
  }

  function FillUser(u: User): User {
    User(Known(u.firstName), Known(u.lastName),
         if u.accounts.None? then None else Some(FillAccounts(u.accounts.value)))
  }

  function FillUsers(users: seq<User>): (r: seq<User>)
    ensures |r| == |users| && forall k :: 0 <= k < |users| ==> r[k] == FillUser(users[k])
  {
    seq(|users|, k requires 0 <= k < |users| => FillUser(users[k]))
  }

  lemma FillingKeepsCopies(users: seq<User>, g: Copy)
    ensures Embeds(FillUsers(users), g) <==> Embeds(users, g)
  {
  }

  predicate CopyThrows(g: Copy, name: string, news: seq<string>) {
    g.name == name && g.roles.None? && news != []
  }

  predicate AccountThrows(a: Account, name: string, news: seq<string>) {
    || a.groups.None?
    || exists g :: g in a.groups.value && CopyThrows(g, name, news)
  }

  /** What rewriting a user runs into: no accounts, an account without groups, or a copy of the name without
      roles. The source throws then. */
  predicate Throws(u: User, name: string, news: seq<string>) {
    || u.accounts.None?
    || exists a :: a in u.accounts.value && AccountThrows(a, name, news)
  }

  /** The number of users that are rewritten: those before the first one that throws. */
  function Reach(users: seq<User>, name: string, news: seq<string>): (k: nat)
    ensures k <= |users| && (k < |users| ==> Throws(users[k], name, news))
    ensures forall j :: 0 <= j < k ==> !Throws(users[j], name, news)
  {
    if users == [] || Throws(users[0], name, news) then 0 else Reach(users[1..], name, news) + 1
  }

  /** User k has no accounts; or its account j has no groups; or copy i in there is of the name and has no roles,
      and there are roles to be added. */
  ghost predicate Incomplete(users: seq<User>, name: string, news: seq<string>, k: nat, j: nat, i: nat) {
    k < |users| &&
    if users[k].accounts.None? then true
    else
      j < |users[k].accounts.value| &&
      if users[k].accounts.value[j].groups.None? then true
      else
        var gs := users[k].accounts.value[j].groups.value;
        i < |gs| && gs[i].name == name && gs[i].roles.None? && news != []
  }

  lemma ThrowsExactly(users: seq<User>, name: string, news: seq<string>, k: nat)
    requires k < |users|
    ensures Throws(users[k], name, news) <==> exists j: nat, i: nat :: Incomplete(users, name, news, k, j, i)
  {
    var u := users[k];
    if Throws(u, name, news) {
      if u.accounts.None? {
        assert Incomplete(users, name, news, k, 0, 0);
      } else {
        var a :| a in u.accounts.value && AccountThrows(a, name, news);
        var j: nat :| j < |u.accounts.value| && u.accounts.value[j] == a;
        if a.groups.None? {
          assert Incomplete(users, name, news, k, j, 0);
        } else {
          var g :| g in a.groups.value && CopyThrows(g, name, news);
          var i: nat :| i < |a.groups.value| && a.groups.value[i] == g;
          assert Incomplete(users, name, news, k, j, i);
        }
      }
    }
    if j: nat, i: nat :| Incomplete(users, name, news, k, j, i) {
      if u.accounts.Some? {
        var a := u.accounts.value[j];
        assert a.groups.Some? ==> CopyThrows(a.groups.value[i], name, news);
        assert AccountThrows(a, name, news);
      }
    }
  }

  /** The users are rewritten up to the first incomplete one. */
  lemma ReachExactly(users: seq<User>, name: string, news: seq<string>)
    ensures var k := Reach(users, name, news);
            && (forall l: nat, j: nat, i: nat :: l < k ==> !Incomplete(users, name, news, l, j, i))
            && (k < |users| ==> exists j: nat, i: nat :: Incomplete(users, name, news, k, j, i))
  {
    hide Incomplete, Throws;
    var k := Reach(users, name, news);
    forall l: nat, j: nat, i: nat | l < k ensures !Incomplete(users, name, news, l, j, i) {
      ThrowsExactly(users, name, news, l);
      assert !Throws(users[l], name, news);
    }
    if k < |users| { ThrowsExactly(users, name, news, k); }
  }

  lemma IncompleteIsUser(users: seq<User>, name: string, news: seq<string>, k: nat, j: nat, i: nat)
    ensures Incomplete(users, name, news, k, j, i) ==> k < |users|
  {
  }

  lemma AllComplete(users: seq<User>, name: string, news: seq<string>)
    ensures (forall k: nat, j: nat, i: nat :: !Incomplete(users, name, news, k, j, i)) <==>
            (forall u <- users :: !Throws(u, name, news))
  {
    hide Throws, Incomplete;
    if forall u <- users :: !Throws(u, name, news) {
      forall k: nat, j: nat, i: nat ensures !Incomplete(users, name, news, k, j, i) {
        IncompleteIsUser(users, name, news, k, j, i);
        if k < |users| {
          ThrowsExactly(users, name, news, k);
          assert !Throws(users[k], name, news);
        }
      }
    }
    if forall k: nat, j: nat, i: nat :: !Incomplete(users, name, news, k, j, i) {
      forall u | u in users ensures !Throws(u, name, news) {
        var l: nat :| l < |users| && users[l] == u;
        ThrowsExactly(users, name, news, l);
      }
    }
  }

  function GrantUsers(users: seq<User>, name: string, news: seq<string>): (r: seq<User>)
    ensures |r| == |users|
  {
    MapUsers(FillUsers(users), GrantCopy(name, news))
  }

  /** The grant of roles to one group and to its copies. The group is updated first; the users from the first
      one that throws are not written. */
  function Grant(d: Directory, name: string, news: seq<string>): Directory {
    var k := Reach(d.users, name, news);
    Directory(GrantGroups(d.groups, name, news), GrantUsers(d.users[..k], name, news) + d.users[k..])
  }

  ghost predicate HasCopy(users: seq<User>, id: string) {
    exists g :: Embeds(users, g) && g.roles.Some? && g.id == id
  }

  /** Group i is granted the roles and none of the users that are not written has a copy of it; or it is a
      further group of the name, which the single update does not reach, and none of the users that are
      written has a copy of it. */
  ghost predicate CopiesFollow(d: Directory, name: string, news: seq<string>, i: nat)
    requires i < |d.groups|
  {
    var k := Reach(d.users, name, news);
    if IsFirst(d.groups, name, i) then !HasCopy(d.users[k..], d.groups[i].id)
    else !HasCopy(d.users[..k], d.groups[i].id)
  }

  /** Every group of the name either has the roles already or has copies only where the grant is consistent. */
  ghost predicate GrantFits(d: Directory, name: string, news: seq<string>) {
    forall i: nat :: i < |d.groups| && d.groups[i].name == name && !(Roles(news) <= Roles(d.groups[i].roles))
      ==> CopiesFollow(d, name, news, i)
  }

  lemma EmbedsInPart(users: seq<User>, k: nat, g: Copy)
    requires k <= |users|
    ensures Embeds(users, g) <==> Embeds(users[..k], g) || Embeds(users[k..], g)
  {
    assert forall u :: u in users <==> u in users[..k] || u in users[k..];
  }

  lemma EmbedsInSum(users1: seq<User>, users2: seq<User>, g: Copy)
    ensures Embeds(users1 + users2, g) <==> Embeds(users1, g) || Embeds(users2, g)
  {
  }

  /** A copy whose group is granted exactly what the copy is granted keeps agreeing with it. */
  lemma GrantedCopyHasSource(d: Directory, name: string, news: seq<string>, g: Copy)
    requires Coherent(d) && GrantFits(d, name, news) && g.roles.Some?
    requires Embeds(d.users[..Reach(d.users, name, news)], g)
    ensures HasSource(GrantCopy(name, news)(g), GrantGroups(d.groups, name, news))
  {
    EmbedsInPart(d.users, Reach(d.users, name, news), g);
    assert HasSource(g, d.groups);
    var i: nat :| i < |d.groups| && Agrees(g, d.groups[i]);
    GrantedGroups(d.groups, name, news, i);
    assert HasCopy(d.users[..Reach(d.users, name, news)], d.groups[i].id);
    assert Agrees(GrantCopy(name, news)(g), GrantGroups(d.groups, name, news)[i]);
  }

  lemma UnwrittenCopyHasSource(d: Directory, name: string, news: seq<string>, g: Copy)
    requires Coherent(d) && GrantFits(d, name, news) && g.roles.Some?
    requires Embeds(d.users[Reach(d.users, name, news)..], g)
    ensures HasSource(g, GrantGroups(d.groups, name, news))
  {
    EmbedsInPart(d.users, Reach(d.users, name, news), g);
    assert HasSource(g, d.groups);
    var i: nat :| i < |d.groups| && Agrees(g, d.groups[i]);
    GrantedGroups(d.groups, name, news, i);
    assert HasCopy(d.users[Reach(d.users, name, news)..], d.groups[i].id);
    assert Agrees(g, GrantGroups(d.groups, name, news)[i]);
  }

  lemma GrantedEmbeds(d: Directory, name: string, news: seq<string>, g': Copy) returns (g: Copy)
    requires Embeds(Grant(d, name, news).users, g')
    ensures var k := Reach(d.users, name, news);
            || (Embeds(d.users[..k], g) && g' == GrantCopy(name, news)(g))
            || (Embeds(d.users[k..], g) && g' == g)
  {
    var k := Reach(d.users, name, news);
    EmbedsInSum(GrantUsers(d.users[..k], name, news), d.users[k..], g');
    if Embeds(d.users[k..], g') {
      g := g';
    } else {
      g := EmbedsBackward(FillUsers(d.users[..k]), GrantCopy(name, news), g');
      FillingKeepsCopies(d.users[..k], g);
    }
  }

  lemma EmbedsGranted(d: Directory, name: string, news: seq<string>, g: Copy)
    ensures var k, users' := Reach(d.users, name, news), Grant(d, name, news).users;
            && (Embeds(d.users[..k], g) ==> Embeds(users', GrantCopy(name, news)(g)))
            && (Embeds(d.users[k..], g) ==> Embeds(users', g))
  {
    var k, f := Reach(d.users, name, news), GrantCopy(name, news);
    var written := GrantUsers(d.users[..k], name, news);
    EmbedsInSum(written, d.users[k..], f(g));
    EmbedsInSum(written, d.users[k..], g);
    if Embeds(d.users[..k], g) {
      FillingKeepsCopies(d.users[..k], g);
      EmbedsForward(FillUsers(d.users[..k]), f, g);
    }
  }

  /** The copy's own group is the only one that it can agree with afterwards. */
  lemma SourceAfterGrant(d: Directory, name: string, news: seq<string>, g: Copy, i: nat)
    requires DistinctIds(d.groups) && i < |d.groups| && g.id == d.groups[i].id
    requires HasSource(g, GrantGroups(d.groups, name, news))
    ensures Agrees(g, GrantGroups(d.groups, name, news)[i])
  {
    var groups' := GrantGroups(d.groups, name, news);
    var j: nat :| j < |groups'| && Agrees(g, groups'[j]);
    GrantedGroups(d.groups, name, news, j);
    GrantedGroups(d.groups, name, news, i);
    assert j == i;
  }

  lemma CoherentCopyAgrees(d: Directory, g: Copy, i: nat)
    requires Coherent(d) && DistinctIds(d.groups) && Embeds(d.users, g) && g.roles.Some?
    requires i < |d.groups| && g.id == d.groups[i].id
    ensures Agrees(g, d.groups[i])
  {
    assert HasSource(g, d.groups);
    var j: nat :| j < |d.groups| && Agrees(g, d.groups[j]);
    assert j == i;
  }

  /** A copy for which the grant is not consistent ends in disagreement. */
  lemma MisfitBreaksCoherence(d: Directory, name: string, news: seq<string>, i: nat)
    requires Coherent(d) && DistinctIds(d.groups) && i < |d.groups| && d.groups[i].name == name
    requires !CopiesFollow(d, name, news, i) && !(Roles(news) <= Roles(d.groups[i].roles))
    ensures !Coherent(Grant(d, name, news))
  {
    var k, f, r := Reach(d.users, name, news), GrantCopy(name, news), Grant(d, name, news);
    var first := IsFirst(d.groups, name, i);
    var part := if first then d.users[k..] else d.users[..k];
    var g :| Embeds(part, g) && g.roles.Some? && g.id == d.groups[i].id;
    EmbedsInPart(d.users, k, g);
    CoherentCopyAgrees(d, g, i);
    EmbedsGranted(d, name, news, g);
    var g' := if first then g else f(g);
    assert Embeds(r.users, g');
    if Coherent(r) {
      assert HasSource(g', r.groups);
      SourceAfterGrant(d, name, news, g', i);
      GrantedGroups(d.groups, name, news, i);
    }
  }

  /** A grant keeps the copies in agreement with their groups exactly when it fits: no group that lacks a role
      has a copy on the wrong side of the two places where the source stops short, the single update and
      the first user that throws. */
  lemma GrantKeepsCoherenceExactly(d: Directory, name: string, news: seq<string>)
    requires Coherent(d) && DistinctIds(d.groups)
    ensures Coherent(Grant(d, name, news)) <==> GrantFits(d, name, news)
  {
    if GrantFits(d, name, news) {
      forall g' | Embeds(Grant(d, name, news).users, g') && g'.roles.Some?
        ensures HasSource(g', GrantGroups(d.groups, name, news))
      {
        var g := GrantedEmbeds(d, name, news, g');
        if Embeds(d.users[..Reach(d.users, name, news)], g) && g' == GrantCopy(name, news)(g) {
          GrantedCopyHasSource(d, name, news, g);
        } else {
          UnwrittenCopyHasSource(d, name, news, g);
        }
      }
    } else {
      var i: nat :| i < |d.groups| && d.groups[i].name == name && !(Roles(news) <= Roles(d.groups[i].roles))
                    && !CopiesFollow(d, name, news, i);
      MisfitBreaksCoherence(d, name, news, i);
    }
  }

  ghost predicate UniqueName(groups: seq<Group>, name: string) {
    forall i, j :: 0 <= i < j < |groups| ==> !(groups[i].name == name && groups[j].name == name)
  }

  /** The ordinary case: a unique name, and users that can all be rewritten. */
  lemma UniqueNameFits(d: Directory, name: string, news: seq<string>)
    requires UniqueName(d.groups, name) && forall u <- d.users :: !Throws(u, name, news)
    ensures GrantFits(d, name, news) && Reach(d.users, name, news) == |d.users|
  {
    assert Reach(d.users, name, news) == |d.users|;
    assert d.users[|d.users|..] == [];
    forall i: nat | i < |d.groups| && d.groups[i].name == name ensures IsFirst(d.groups, name, i) {
    }
  }

  const LSP_ADMIN := "LSP_ADMIN"
  const LMS_HR := "LMS_HR"

  /** roles', granted from roles. */
  ghost predicate GrantedFrom(roles: seq<string>, roles': seq<string>, news: seq<string>) {
    && roles <= roles'
    && forall x :: Count(roles', x) == if x in roles then Count(roles, x) else if x in news then 1 else 0
  }

  ghost predicate CopyGrantedFrom(g: Copy, g': Copy, name: string, news: seq<string>) {
    && (g.name != name || g.roles.None? ==> g' == g)
    && (g.name == name && g.roles.Some? ==>
          g'.id == g.id && g'.name == g.name && g'.roles.Some? && GrantedFrom(g.roles.value, g'.roles.value, news))
  }

  ghost predicate AccountGrantedFrom(a: Account, a': Account, name: string, news: seq<string>) {
    && a'.accountType == Some(if a.accountType.GetOr("") == "" then "Unknown" else a.accountType.value)
    && a'.groups.Some? == a.groups.Some?
    && |a'.groups.GetOr([])| == |a.groups.GetOr([])|
    && forall i :: 0 <= i < |a.groups.GetOr([])| ==>
         CopyGrantedFrom(a.groups.value[i], a'.groups.value[i], name, news)
  }

  ghost predicate UserGrantedFrom(u: User, u': User, name: string, news: seq<string>) {
    && u'.firstName == Some(if u.firstName.GetOr("") == "" then "Unknown" else u.firstName.value)
    && u'.lastName == Some(if u.lastName.GetOr("") == "" then "Unknown" else u.lastName.value)
    && u'.accounts.Some? == u.accounts.Some?
    && |u'.accounts.GetOr([])| == |u.accounts.GetOr([])|
    && forall j :: 0 <= j < |u.accounts.GetOr([])| ==>
         AccountGrantedFrom(u.accounts.value[j], u'.accounts.value[j], name, news)
  }

  lemma GrantedRolesAre(roles: seq<string>, news: seq<string>)
    ensures GrantedFrom(roles, AddAll(roles, news), news)
  {
    forall x
      ensures Count(AddAll(roles, news), x) == if x in roles then Count(roles, x) else if x in news then 1 else 0
    {
      AddedRoles(roles, news, x);
    }
    AddedRoles(roles, news, "");
  }

  lemma GrantedUserIs(u: User, name: string, news: seq<string>)
    ensures UserGrantedFrom(u, MapUser(FillUser(u), GrantCopy(name, news)), name, news)
  {
    hide GrantedFrom, AddAll;
    var f, u' := GrantCopy(name, news), MapUser(FillUser(u), GrantCopy(name, news));
    forall g ensures CopyGrantedFrom(g, f(g), name, news) {
      if g.roles.Some? { GrantedRolesAre(g.roles.value, news); }
    }
    forall j | 0 <= j < |u.accounts.GetOr([])|
      ensures AccountGrantedFrom(u.accounts.value[j], u'.accounts.value[j], name, news)
    {
    }
  }

  /** The grant, field by field: the first group of the name and the copies of the name are granted the roles, missing
      names and account types become "Unknown", and from the first incomplete user on no user is written. */
  lemma GrantSpelledOut(d: Directory, name: string, news: seq<string>)
    ensures var r, k := Grant(d, name, news), Reach(d.users, name, news);
            && |r.groups| == |d.groups| && |r.users| == |d.users|
            && (forall i: nat :: i < |d.groups| ==>
                  if d.groups[i].name == name && (forall j :: 0 <= j < i ==> d.groups[j].name != name)
                  then r.groups[i] == d.groups[i].(roles := r.groups[i].roles)
                       && GrantedFrom(d.groups[i].roles, r.groups[i].roles, news)
                  else r.groups[i] == d.groups[i])
            && (forall i :: 0 <= i < k ==> UserGrantedFrom(d.users[i], r.users[i], name, news))
            && (forall i :: k <= i < |d.users| ==> r.users[i] == d.users[i])
  {
    hide GrantedFrom, UserGrantedFrom, AddAll;
    var k := Reach(d.users, name, news);
    forall i: nat | i < |d.groups| ensures GrantedFrom(d.groups[i].roles, AddAll(d.groups[i].roles, news), news) {
      GrantedRolesAre(d.groups[i].roles, news);
    }
    forall i: nat | i < |d.groups|
      ensures GrantGroups(d.groups, name, news)[i] ==
              if IsFirst(d.groups, name, i) then d.groups[i].(roles := AddAll(d.groups[i].roles, news)) else d.groups[i]
    {
      GrantedGroups(d.groups, name, news, i);
    }
    forall i | 0 <= i < k ensures UserGrantedFrom(d.users[i], Grant(d, name, news).users[i], name, news) {
      GrantedUserIs(d.users[i], name, news);
    }
  }

  /** A user without accounts before a user with a copy: the group is granted the role, the copy is not. */
  lemma IncompleteUserBreaksCoherence(role: string)
    ensures var copy := Copy("g", LSP_ADMIN, Some([]));
            var users := [User(None, None, None), User(None, None, Some([Account(None, Some([copy]))]))];
            var d := Directory([Group("g", LSP_ADMIN, "lsp", [])], users);
            && Coherent(d) && UniqueName(d.groups, LSP_ADMIN) && !Coherent(Grant(d, LSP_ADMIN, [role]))
  {
    var copy := Copy("g", LSP_ADMIN, Some([]));
    var users := [User(None, None, None), User(None, None, Some([Account(None, Some([copy]))]))];
    var d := Directory([Group("g", LSP_ADMIN, "lsp", [])], users);
    assert Agrees(copy, d.groups[0]);
    assert Coherent(d) by {
      forall g | Embeds(users, g) ensures g == copy {
      }
    }
    assert Reach(users, LSP_ADMIN, [role]) == 0;
    assert users[0..] == users && users[1] in users && Account(None, Some([copy])) in users[1].accounts.value;
    assert Embeds(users[0..], copy) && HasCopy(users[0..], "g");
    assert role in Roles([role]) && role !in Roles([]);
    assert IsFirst(d.groups, LSP_ADMIN, 0) && !CopiesFollow(d, LSP_ADMIN, [role], 0);
    MisfitBreaksCoherence(d, LSP_ADMIN, [role], 0);
  }

  // ----- Removing a role everywhere and granting it again to two groups -----

  predicate Affected(name: string) {
    name == LSP_ADMIN || name == LMS_HR
  }

  /** Removed, and pushed again where the name is one of the two. */
  function Regranted(name: string, roles: seq<string>, role: string): seq<string> {
    if Affected(name) then Remove(roles, role) + [role] else Remove(roles, role)
  }

  /** The role is there exactly once in the two groups and nowhere else, all other roles are kept. */
  lemma RegrantedRoles(name: string, roles: seq<string>, role: string)
    ensures Count(Regranted(name, roles, role), role) == if name == "LSP_ADMIN" || name == "LMS_HR" then 1 else 0
    ensures forall other :: other != role ==> Count(Regranted(name, roles, role), other) == Count(roles, other)
    ensures Roles(Regranted(name, roles, role)) ==
            Roles(roles) - {role} + if name == "LSP_ADMIN" || name == "LMS_HR" then {role} else {}
  {
    var removed := Remove(roles, role);
    assert role !in removed && role !in multiset(removed);
    forall other | other != role
      ensures Count(Regranted(name, roles, role), other) == Count(roles, other)
    {
      RemoveKeepsOthers(roles, role, other);
    }
  }

  function PullFromGroups(groups: seq<Group>, role: string): (r: seq<Group>)
    ensures |r| == |groups|
    ensures forall k :: 0 <= k < |groups| ==> r[k] == groups[k].(roles := Remove(groups[k].roles, role))
  {
    seq(|groups|, k requires 0 <= k < |groups| => groups[k].(roles := Remove(groups[k].roles, role)))
  }

  predicate HasHr(groups: seq<Group>, lspId: string) {
    exists g :: g in groups && g.name == LMS_HR && g.lspId == lspId
  }

  function EnsureHr(groups: seq<Group>, lspId: string, freshId: string): seq<Group> {
    if HasHr(groups, lspId) then groups else groups + [Group(freshId, LMS_HR, lspId, [])]
  }

  function AddToAffected(groups: seq<Group>, role: string): (r: seq<Group>)
    ensures |r| == |groups|
    ensures forall k :: 0 <= k < |groups| ==>
              r[k] == if Affected(groups[k].name) then groups[k].(roles := Add(groups[k].roles, role)) else groups[k]
  {
    seq(|groups|, k requires 0 <= k < |groups| =>
          if Affected(groups[k].name) then groups[k].(roles := Add(groups[k].roles, role)) else groups[k])
  }

  function RegrantGroups(groups: seq<Group>, lspId: string, freshId: string, role: string): seq<Group> {
    AddToAffected(EnsureHr(PullFromGroups(groups, role), lspId, freshId), role)
  }

  function RegrantCopy(role: string): Copy -> Copy {
    (g: Copy) => if g.roles.None? then g else g.(roles := Some(Regranted(g.name, g.roles.value, role)))
  }

  function Regrant(d: Directory, lspId: string, freshId: string, role: string): Directory {
    Directory(RegrantGroups(d.groups, lspId, freshId, role), MapUsers(d.users, RegrantCopy(role)))
  }

  ghost predicate FreshId(groups: seq<Group>, id: string) {
    forall i :: 0 <= i < |groups| ==> groups[i].id != id
  }

  lemma PullingKeepsHr(groups: seq<Group>, lspId: string, role: string)
    ensures HasHr(PullFromGroups(groups, role), lspId) <==> HasHr(groups, lspId)
  {
  }

  /** The groups afterwards: the old ones in order, each with its roles regranted, and at most one more,
      the human-resources group of the tenant. */
  lemma RegrantedGroups(groups: seq<Group>, lspId: string, freshId: string, role: string)
    ensures var r := RegrantGroups(groups, lspId, freshId, role);
            && |groups| <= |r|
            && (forall k :: 0 <= k < |groups| ==>
                  k < |r| && r[k] == groups[k].(roles := Regranted(groups[k].name, groups[k].roles, role)))
            && (HasHr(groups, lspId) ==> |r| == |groups|)
            && (!HasHr(groups, lspId) ==> r == r[..|groups|] + [Group(freshId, LMS_HR, lspId, [role])])
  {
    hide Remove, HasHr;
    PullingKeepsHr(groups, lspId, role);
    assert Add([], role) == [role];
  }

  /** The same group or copy, with every role but one standing as often as before. */
  ghost predicate KeepsOtherRoles(g: Copy, g': Copy, role: string) {
    && g'.id == g.id && g'.name == g.name && g'.roles.Some? == g.roles.Some?
    && forall other :: other != role ==> Count(g'.roles.GetOr([]), other) == Count(g.roles.GetOr([]), other)
  }

  /** After the step the role stands exactly once in every group named LSP_ADMIN or LMS_HR and in no other,
      and every other role of an old group stands as often as before. */
  lemma RoleExactlyInGroups(d: Directory, lspId: string, freshId: string, role: string)
    ensures var r := Regrant(d, lspId, freshId, role);
            && |d.groups| <= |r.groups|
            && (forall k :: 0 <= k < |r.groups| ==>
                  Count(r.groups[k].roles, role) ==
                  if r.groups[k].name == "LSP_ADMIN" || r.groups[k].name == "LMS_HR" then 1 else 0)
            && (forall k, other :: 0 <= k < |d.groups| && other != role ==>
                  Count(r.groups[k].roles, other) == Count(d.groups[k].roles, other))
  {
    hide Regranted, RegrantGroups;
    var r := Regrant(d, lspId, freshId, role);
    RegrantedGroups(d.groups, lspId, freshId, role);
    forall k | 0 <= k < |d.groups|
      ensures Count(r.groups[k].roles, role) ==
              if r.groups[k].name == "LSP_ADMIN" || r.groups[k].name == "LMS_HR" then 1 else 0
      ensures forall other :: other != role ==> Count(r.groups[k].roles, other) == Count(d.groups[k].roles, other)
    {
      RegrantedRoles(d.groups[k].name, d.groups[k].roles, role);
    }
  }

  lemma CopyKeepsOtherRoles(d: Directory, lspId: string, freshId: string, role: string, g: Copy)
    requires Embeds(d.users, g)
    ensures Embeds(Regrant(d, lspId, freshId, role).users, RegrantCopy(role)(g))
    ensures KeepsOtherRoles(g, RegrantCopy(role)(g), role)
  {
    EmbedsForward(d.users, RegrantCopy(role), g);
    if g.roles.Some? { RegrantedRoles(g.name, g.roles.value, role); }
  }

  /** The same for the embedded copies: each is rewritten in place, with the role exactly where it belongs. */
  lemma RoleExactlyInCopies(d: Directory, lspId: string, freshId: string, role: string)
    ensures var r := Regrant(d, lspId, freshId, role);
            && (forall g :: Embeds(r.users, g) && g.roles.Some? ==>
                  Count(g.roles.value, role) == if g.name == "LSP_ADMIN" || g.name == "LMS_HR" then 1 else 0)
            && (forall g :: Embeds(d.users, g) ==> exists g' :: Embeds(r.users, g') && KeepsOtherRoles(g, g', role))
  {
    hide Embeds, Count, KeepsOtherRoles, Regranted, RegrantGroups;
    var r := Regrant(d, lspId, freshId, role);
    forall g' | Embeds(r.users, g') && g'.roles.Some?
      ensures Count(g'.roles.value, role) == if g'.name == "LSP_ADMIN" || g'.name == "LMS_HR" then 1 else 0
    {
      var g := EmbedsBackward(d.users, RegrantCopy(role), g');
      RegrantedRoles(g.name, g.roles.value, role);
    }
    forall g | Embeds(d.users, g) ensures exists g' :: Embeds(r.users, g') && KeepsOtherRoles(g, g', role) {
      CopyKeepsOtherRoles(d, lspId, freshId, role, g);
    }
  }

  /** Removing and granting again reaches every group of the names, so it always keeps the agreement. */
  lemma RegrantKeepsCoherence(d: Directory, lspId: string, freshId: string, role: string)
    requires Coherent(d)
    ensures Coherent(Regrant(d, lspId, freshId, role))
  {
    var f, r := RegrantCopy(role), Regrant(d, lspId, freshId, role);
    RegrantedGroups(d.groups, lspId, freshId, role);
    forall g' | Embeds(r.users, g') && g'.roles.Some? ensures HasSource(g', r.groups) {
      var g := EmbedsBackward(d.users, f, g');
      assert HasSource(g, d.groups);
      var i :| 0 <= i < |d.groups| && Agrees(g, d.groups[i]);
      RegrantedRoles(g.name, g.roles.value, role);
      RegrantedRoles(g.name, d.groups[i].roles, role);
      assert Agrees(g', r.groups[i]);
    }
  }

  /** The regranted groups: the old ones keep id, name and tenant; an LMS_HR group of the tenant is added exactly if
      the tenant has none, with the role as its only one. */
  lemma HrGroupInserted(d: Directory, lspId: string, freshId: string, role: string)
    ensures var r := Regrant(d, lspId, freshId, role);
            && |d.groups| <= |r.groups| <= |d.groups| + 1
            && (forall k :: 0 <= k < |d.groups| ==> r.groups[k] == d.groups[k].(roles := r.groups[k].roles))
            && (|r.groups| == |d.groups| <==>
                  exists k :: 0 <= k < |d.groups| && d.groups[k].name == "LMS_HR" && d.groups[k].lspId == lspId)
            && (|r.groups| > |d.groups| ==> r.groups[|d.groups|] == Group(freshId, "LMS_HR", lspId, [role]))
  {
    hide Regranted, RegrantGroups;
    RegrantedGroups(d.groups, lspId, freshId, role);
    if HasHr(d.groups, lspId) {
      var g :| g in d.groups && g.name == LMS_HR && g.lspId == lspId;
      var k :| 0 <= k < |d.groups| && d.groups[k] == g;
    }
  }

  ghost predicate CopyRegrantedFrom(g: Copy, g': Copy, role: string) {
    && KeepsOtherRoles(g, g', role)
    && (g.roles.Some? ==> Count(g'.roles.value, role) == if g.name == "LSP_ADMIN" || g.name == "LMS_HR" then 1 else 0)
  }

  ghost predicate AccountRegrantedFrom(a: Account, a': Account, role: string) {
    && a'.accountType == a.accountType && a'.groups.Some? == a.groups.Some?
    && |a'.groups.GetOr([])| == |a.groups.GetOr([])|
    && forall i :: 0 <= i < |a.groups.GetOr([])| ==> CopyRegrantedFrom(a.groups.value[i], a'.groups.value[i], role)
  }

  ghost predicate UserRegrantedFrom(u: User, u': User, role: string) {
    && u'.firstName == u.firstName && u'.lastName == u.lastName && u'.accounts.Some? == u.accounts.Some?
    && |u'.accounts.GetOr([])| == |u.accounts.GetOr([])|
    && forall j :: 0 <= j < |u.accounts.GetOr([])| ==>
         AccountRegrantedFrom(u.accounts.value[j], u'.accounts.value[j], role)
  }

  /** The users, place by place: names, accounts and copies stay where they are, and only the role moves. */
  lemma UsersRegranted(d: Directory, lspId: string, freshId: string, role: string, k: nat)
    requires k < |d.users|
    ensures |Regrant(d, lspId, freshId, role).users| == |d.users|
    ensures UserRegrantedFrom(d.users[k], Regrant(d, lspId, freshId, role).users[k], role)
  {
    hide Regranted, Count;
    var f, u, u' := RegrantCopy(role), d.users[k], MapUser(d.users[k], RegrantCopy(role));
    forall g ensures CopyRegrantedFrom(g, f(g), role) {
      if g.roles.Some? { RegrantedRoles(g.name, g.roles.value, role); }
    }
    forall j | 0 <= j < |u.accounts.GetOr([])|
      ensures AccountRegrantedFrom(u.accounts.value[j], u'.accounts.value[j], role)
    {
    }
  }

  // ----- Runs -----

  datatype Operation =
    | GrantOp(name: string, news: seq<string>)
    | RegrantOp(lspId: string, freshId: string, role: string)

  /** A grant fits; an inserted group gets an unused id. */
  ghost predicate Allowed(d: Directory, op: Operation) {
    match op
    case GrantOp(name, news) => GrantFits(d, name, news)
    case RegrantOp(_, freshId, _) => FreshId(d.groups, freshId)
  }

  function Perform(d: Directory, op: Operation): Directory {
    match op
    case GrantOp(name, news) => Grant(d, name, news)
    case RegrantOp(lspId, freshId, role) => Regrant(d, lspId, freshId, role)
  }

  ghost predicate Runs(d: Directory, ops: seq<Operation>, last: Directory)
    decreases ops
  {
    if ops == [] then d == last else Allowed(d, ops[0]) && Runs(Perform(d, ops[0]), ops[1..], last)
  }

  lemma OperationKeepsIds(d: Directory, op: Operation)
    requires DistinctIds(d.groups) && Allowed(d, op)
    ensures DistinctIds(Perform(d, op).groups)
  {
    match op
    case GrantOp(name, news) =>
      forall i: nat | i < |d.groups| ensures GrantGroups(d.groups, name, news)[i].id == d.groups[i].id {
        GrantedGroups(d.groups, name, news, i);
      }
    case RegrantOp(lspId, freshId, role) =>
      RegrantedGroups(d.groups, lspId, freshId, role);
  }

  lemma OperationKeepsCoherence(d: Directory, op: Operation)
    requires Coherent(d) && DistinctIds(d.groups) && Allowed(d, op)
    ensures Coherent(Perform(d, op))
  {
    match op
    case GrantOp(name, news) =>
      GrantKeepsCoherenceExactly(d, name, news);
    case RegrantOp(lspId, freshId, role) =>
      RegrantKeepsCoherence(d, lspId, freshId, role);
  }

  /** Over every sequence of grants and regrants the embedded copies agree with their groups. */
  lemma {:induction false} RunsKeepCoherence(d: Directory, ops: seq<Operation>, last: Directory)
    requires Coherent(d) && DistinctIds(d.groups) && Runs(d, ops, last)
    ensures Coherent(last) && DistinctIds(last.groups)
    decreases ops
  {
    if ops != [] {
      OperationKeepsIds(d, ops[0]);
      OperationKeepsCoherence(d, ops[0]);
      RunsKeepCoherence(Perform(d, ops[0]), ops[1..], last);
    }
  }

  // ----- The migrations as updates in place -----

  class Collections {
    var groups: seq<Group>
    var users: seq<User>

    constructor (d: Directory)
      ensures Contents() == d
    {
      groups, users := d.groups, d.users;
    }

    ghost function Contents(): Directory
      reads this
    {
      Directory(groups, users)
    }

    /** The loop over the new roles for one copy. */
    static method GrantToCopy(g: Copy, name: string, news: seq<string>) returns (r: Result<Copy, Error>)
      ensures r == if CopyThrows(g, name, news) then Err(NotThere) else Ok(GrantCopy(name, news)(g))
    {
      if g.name != name { return Ok(g); }
      var roles := g.roles;
      for k := 0 to |news|
        invariant g.roles.None? ==> k == 0
        invariant roles.Some? <==> g.roles.Some?
        invariant roles.Some? ==> AddAll(roles.value, news[k..]) == AddAll(g.roles.value, news)
      {
        if roles.None? { return Err(NotThere); }
        assert news[k..][1..] == news[k + 1..];
        roles := Some(Add(roles.value, news[k]));
      }
      return Ok(g.(roles := roles));
    }

    /** The loop over the group copies of one account, whose missing type is filled in. */
    static method GrantToAccount(a: Account, name: string, news: seq<string>) returns (r: Result<Account, Error>)
      ensures r == if AccountThrows(a, name, news) then Err(NotThere)
                   else Ok(MapAccount(a.(accountType := Known(a.accountType)), GrantCopy(name, news)))
    {
      if a.groups.None? { return Err(NotThere); }
      var gs := a.groups.value;
      for k := 0 to |gs|
        invariant |gs| == |a.groups.value|
        invariant forall j :: 0 <= j < k ==> !CopyThrows(a.groups.value[j], name, news)
        invariant forall j :: 0 <= j < k ==> gs[j] == GrantCopy(name, news)(a.groups.value[j])
        invariant forall j :: k <= j < |gs| ==> gs[j] == a.groups.value[j]
      {
        var g := GrantToCopy(gs[k], name, news);
        if g.Err? { return Err(NotThere); }
        gs := gs[k := g.value];
      }
      assert gs == MapCopies(a.groups.value, GrantCopy(name, news));
      return Ok(a.(accountType := Known(a.accountType), groups := Some(gs)));
    }

    /** The loop over the accounts of one user, whose missing names are filled in. */
    static method GrantToUser(u: User, name: string, news: seq<string>) returns (r: Result<User, Error>)
      ensures r == if Throws(u, name, news) then Err(NotThere) else Ok(MapUser(FillUser(u), GrantCopy(name, news)))
    {
      if u.accounts.None? { return Err(NotThere); }
      var accounts := u.accounts.value;
      ghost var filled := FillAccounts(accounts);
      for k := 0 to |accounts|
        invariant |accounts| == |u.accounts.value|
        invariant forall j :: 0 <= j < k ==> !AccountThrows(u.accounts.value[j], name, news)
        invariant forall j :: 0 <= j < k ==> accounts[j] == MapAccount(filled[j], GrantCopy(name, news))
        invariant forall j :: k <= j < |accounts| ==> accounts[j] == u.accounts.value[j]
      {
        var a := GrantToAccount(accounts[k], name, news);
        if a.Err? { return Err(NotThere); }
        accounts := accounts[k := a.value];
      }
      assert accounts == MapAccounts(filled, GrantCopy(name, news));
      return Ok(User(Known(u.firstName), Known(u.lastName), Some(accounts)));
    }

    /** The first group of the name takes the roles, then so does every copy of the name, user by user; the
        migration fails at the first user that throws. */
    method GrantRoles(name: string, news: seq<string>) returns (r: Result<(), Error>)
      modifies this
      ensures Contents() == Grant(old(Contents()), name, news)
      ensures r.Ok? <==> forall k: nat, j: nat, i: nat :: !Incomplete(old(users), name, news, k, j, i)
    {
      AllComplete(users, name, news);
      hide Incomplete;
      groups := GrantGroups(groups, name, news);
      ghost var all, reach := users, Reach(users, name, news);
      r := Ok(());
      var k := 0;
      while k < |users|
        invariant 0 <= k <= reach && |users| == |all|
        invariant groups == GrantGroups(old(groups), name, news)
        invariant forall j :: 0 <= j < k ==> users[j] == MapUser(FillUser(all[j]), GrantCopy(name, news))
        invariant forall j :: k <= j < |users| ==> users[j] == all[j]
      {
        var u := GrantToUser(users[k], name, news);
        if u.Err? {
          r := Err(NotThere);
          break;
        }
        users := users[k := u.value];
        k := k + 1;
      }
      assert k == reach;
      assert users == GrantUsers(all[..k], name, news) + all[k..];
    }

    /** The loop over the group copies of one account. */
    static method RegrantAccount(a: Account, role: string) returns (r: Account)
      ensures r == MapAccount(a, RegrantCopy(role))
    {
      if a.groups.None? { return a; }
      var gs := a.groups.value;
      for k := 0 to |gs|
        invariant |gs| == |a.groups.value|
        invariant forall j :: 0 <= j < k ==> gs[j] == RegrantCopy(role)(a.groups.value[j])
        invariant forall j :: k <= j < |gs| ==> gs[j] == a.groups.value[j]
      {
        if gs[k].roles.Some? {
          var roles := Remove(gs[k].roles.value, role);
          if Affected(gs[k].name) { roles := roles + [role]; }
          gs := gs[k := gs[k].(roles := Some(roles))];
        }
      }
      assert gs == MapCopies(a.groups.value, RegrantCopy(role));
      return a.(groups := Some(gs));
    }

    static method RegrantUser(u: User, role: string) returns (r: User)
      ensures r == MapUser(u, RegrantCopy(role))
    {
      if u.accounts.None? { return u; }
      var accounts := u.accounts.value;
      for k := 0 to |accounts|
        invariant |accounts| == |u.accounts.value|
        invariant forall j :: 0 <= j < k ==> accounts[j] == MapAccount(u.accounts.value[j], RegrantCopy(role))
        invariant forall j :: k <= j < |accounts| ==> accounts[j] == u.accounts.value[j]
      {
        var a := RegrantAccount(accounts[k], role);
        accounts := accounts[k := a];
      }
      assert accounts == MapAccounts(u.accounts.value, RegrantCopy(role));
      return u.(accounts := Some(accounts));
    }

    method RemoveAndRegrant(lspId: string, freshId: string, role: string)
      modifies this
      ensures Contents() == Regrant(old(Contents()), lspId, freshId, role)
    {
      groups := PullFromGroups(groups, role);
      groups := EnsureHr(groups, lspId, freshId);
      groups := AddToAffected(groups, role);
      var k := 0;
      while k < |users|
        invariant 0 <= k <= |users| == |old(users)|
        invariant groups == RegrantGroups(old(groups), lspId, freshId, role)
        invariant forall j :: 0 <= j < k ==> users[j] == MapUser(old(users)[j], RegrantCopy(role))
        invariant forall j :: k <= j < |users| ==> users[j] == old(users)[j]
      {
        var u := RegrantUser(users[k], role);
        users := users[k := u];
        k := k + 1;
      }
      assert users == MapUsers(old(users), RegrantCopy(role));
    }
  }
}
