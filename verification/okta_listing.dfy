/** Building the app list: the user listing of one app and the folding of
    the gathered per-app listings into the apps (`list_app_user_assignments`,
    the loop at the end of `list_all_apps`). */
module OktaListing {
  import opened Wrappers
  import opened Seqs
  import opened OktaModel

  /** One gathered listing: `{"app_id": …, "user_assignments": […]}` or
      `{"app_id": …, "group_assignments": […]}`; a missing list is empty. */
  datatype Listing = Listing(appId: string, users: seq<string>, groups: seq<string>)

  /** An app user as listed: its id and how it is assigned. */
  datatype AppUser = AppUser(id: string, scope: string)

  /** `list_app_user_assignments`: users assigned through a group are
      skipped; a failed login lookup raises. */
  function UserListing(appId: string, users: seq<AppUser>, login: string -> Option<string>): (r: Result<Listing, string>)
    ensures r.Ok? <==> forall u :: u in users && u.scope != "GROUP" ==> login(u.id).Some?
    ensures r.Ok? ==> r.value.appId == appId && r.value.groups == []
    ensures r.Ok? ==> |r.value.users| == |DirectUsers(users)|
    ensures r.Ok? ==> forall i :: 0 <= i < |r.value.users| ==> Some(r.value.users[i]) == login(DirectUsers(users)[i].id)
  {
    match Logins(DirectUsers(users), login)
    case None => Err("Error encountered when getting user")
    case Some(names) => Ok(Listing(appId, names, []))
  }

  /** The app users assigned directly rather than through a group. */
  function DirectUsers(users: seq<AppUser>): (r: seq<AppUser>)
    ensures forall u :: u in r <==> u in users && u.scope != "GROUP"
    ensures |r| <= |users|
  {
    Filter(users, (u: AppUser) => u.scope != "GROUP")
  }

  /** Each user's login, in order; `None` as soon as one lookup fails. */
  function Logins(users: seq<AppUser>, login: string -> Option<string>): (r: Option<seq<string>>)
    ensures r.Some? <==> forall u :: u in users ==> login(u.id).Some?
    ensures r.Some? ==> |r.value| == |users|
    ensures r.Some? ==> forall i :: 0 <= i < |users| ==> Some(r.value[i]) == login(users[i].id)
  {
    if |users| == 0 then Some([])
    else
      assert forall u :: u in users <==> u == users[0] || u in users[1..];
      match login(users[0].id)
      case None => None
      case Some(name) =>
        match Logins(users[1..], login)
        case None => None
        case Some(rest) => Some([name] + rest)
  }

  function UserAssignment(u: string): Assignment
  {
    Assignment(Some(u), None, None)
  }

  function GroupAssignment(g: string): Assignment
  {
    Assignment(None, Some(g), None)
  }

  /** A listing's entries as assignments: its users, then its groups. */
  function Entries(l: Listing): (r: seq<Assignment>)
    ensures |r| == |l.users| + |l.groups|
    ensures forall i :: 0 <= i < |l.users| ==> r[i] == UserAssignment(l.users[i])
    ensures forall i :: 0 <= i < |l.groups| ==> r[|l.users| + i] == GroupAssignment(l.groups[i])
  {
    seq(|l.users|, i requires 0 <= i < |l.users| => UserAssignment(l.users[i]))
      + seq(|l.groups|, i requires 0 <= i < |l.groups| => GroupAssignment(l.groups[i]))
  }

  /** Everything the listings with this app id contribute, listing by
      listing in gather order. */
  function Collected(listings: seq<Listing>, appId: string): (r: seq<Assignment>)
    ensures forall a :: a in r ==> exists l :: l in listings && l.appId == appId && a in Entries(l)
    ensures forall l :: l in listings && l.appId == appId ==> forall a :: a in Entries(l) ==> a in r
  {
    if |listings| == 0 then []
    else
      var rest := Collected(listings[1..], appId);
      assert forall l :: l in listings <==> l == listings[0] || l in listings[1..];
      (if listings[0].appId == appId then Entries(listings[0]) else []) + rest
  }

  /** The folding loop: the apps, in input order, each extended by what the
      listings gathered for it. */
  function Fold(apps: seq<App>, listings: seq<Listing>): (r: seq<App>)
    ensures |r| == |apps|
    ensures forall i :: 0 <= i < |apps| ==>
              && r[i].(assignments := apps[i].assignments) == apps[i]
              && |r[i].assignments| >= |apps[i].assignments|
              && r[i].assignments[..|apps[i].assignments|] == apps[i].assignments
              && r[i].assignments[|apps[i].assignments|..] == Collected(listings, apps[i].id)
  {
    seq(|apps|, i requires 0 <= i < |apps| =>
          apps[i].(assignments := apps[i].assignments + Collected(listings, apps[i].id)))
  }

  /** The listings in gather order: for every app, its user listing then
      its group listing. */
  function Gathered(apps: seq<App>, users: seq<seq<string>>, groups: seq<seq<string>>): (r: seq<Listing>)
    requires |users| == |apps| && |groups| == |apps|
    ensures |r| == 2 * |apps|
    ensures forall i :: 0 <= i < |apps| ==>
              r[2 * i] == Listing(apps[i].id, users[i], []) && r[2 * i + 1] == Listing(apps[i].id, [], groups[i])
  {
    if |apps| == 0 then []
    else
      var rest := Gathered(apps[1..], users[1..], groups[1..]);
      var head := [Listing(apps[0].id, users[0], []), Listing(apps[0].id, [], groups[0])];
      forall i | 1 <= i < |apps|
        ensures (head + rest)[2 * i] == Listing(apps[i].id, users[i], [])
        ensures (head + rest)[2 * i + 1] == Listing(apps[i].id, [], groups[i])
      {
        var k := i - 1;
        assert apps[1..][k] == apps[i] && users[1..][k] == users[i] && groups[1..][k] == groups[i];
        assert (head + rest)[2 * i] == rest[2 * k];
        assert (head + rest)[2 * i + 1] == rest[2 * k + 1];
      }
      head + rest
  }

  /** The apps' ids, in order. */
  function AppIds(apps: seq<App>): (ids: seq<string>)
    ensures |ids| == |apps| && forall i :: 0 <= i < |apps| ==> ids[i] == apps[i].id
  {
    seq(|apps|, i requires 0 <= i < |apps| => apps[i].id)
  }

  /** App ids are distinct. */
  predicate DistinctIds(apps: seq<App>)
  {
    Distinct(AppIds(apps))
  }

  /** With distinct app ids, folding the gathered listings gives every app
      exactly its own users followed by its own groups. */
  lemma {:induction false} FoldGathered(apps: seq<App>, users: seq<seq<string>>, groups: seq<seq<string>>)
    requires |users| == |apps| && |groups| == |apps|
    requires DistinctIds(apps)
    ensures forall i :: 0 <= i < |apps| ==>
              Fold(apps, Gathered(apps, users, groups))[i].assignments
              == apps[i].assignments + Entries(Listing(apps[i].id, users[i], groups[i]))
  {
    forall i | 0 <= i < |apps|
      ensures Collected(Gathered(apps, users, groups), apps[i].id)
              == Entries(Listing(apps[i].id, users[i], groups[i]))
    {
      CollectedOwn(apps, users, groups, i);
    }
  }

  lemma {:induction false} CollectedOwn(apps: seq<App>, users: seq<seq<string>>, groups: seq<seq<string>>, i: nat)
    requires |users| == |apps| && |groups| == |apps|
    requires DistinctIds(apps)
    requires i < |apps|
    ensures Collected(Gathered(apps, users, groups), apps[i].id)
            == Entries(Listing(apps[i].id, users[i], groups[i]))
  {
    GatheredCons(apps, users, groups);
    if i == 0 {
      CollectedFirst(apps, users, groups);
    } else {
      DistinctTail(apps);
      CollectedOwn(apps[1..], users[1..], groups[1..], i - 1);
      CollectedLater(apps, users, groups, i);
    }
  }

  /** The first app collects its own two listings and nothing after them. */
  lemma CollectedFirst(apps: seq<App>, users: seq<seq<string>>, groups: seq<seq<string>>)
    requires |users| == |apps| && |groups| == |apps| && |apps| > 0
    requires DistinctIds(apps)
    ensures Collected(Gathered(apps, users, groups), apps[0].id)
            == Entries(Listing(apps[0].id, users[0], groups[0]))
  {
    var id := apps[0].id;
    var rest := Gathered(apps[1..], users[1..], groups[1..]);
    GatheredCons(apps, users, groups);
    CollectedCons(Listing(id, users[0], []), [Listing(id, [], groups[0])] + rest, id);
    CollectedCons(Listing(id, [], groups[0]), rest, id);
    FirstIdNotLater(apps);
    CollectedAbsent(apps[1..], users[1..], groups[1..], id);
    EntriesSplit(id, users[0], groups[0]);
  }

  /** A later app collects nothing from the first app's two listings. */
  lemma CollectedLater(apps: seq<App>, users: seq<seq<string>>, groups: seq<seq<string>>, i: nat)
    requires |users| == |apps| && |groups| == |apps|
    requires DistinctIds(apps)
    requires 0 < i < |apps|
    ensures Collected(Gathered(apps, users, groups), apps[i].id)
            == Collected(Gathered(apps[1..], users[1..], groups[1..]), apps[1..][i - 1].id)
  {
    var id := apps[i].id;
    var rest := Gathered(apps[1..], users[1..], groups[1..]);
    GatheredCons(apps, users, groups);
    assert AppIds(apps)[0] != AppIds(apps)[i];
    CollectedCons(Listing(apps[0].id, users[0], []), [Listing(apps[0].id, [], groups[0])] + rest, id);
    CollectedCons(Listing(apps[0].id, [], groups[0]), rest, id);
    assert apps[1..][i - 1] == apps[i];
  }

  /** No later app has the first app's id. */
  lemma FirstIdNotLater(apps: seq<App>)
    requires |apps| > 0 && DistinctIds(apps)
    ensures forall j :: 0 <= j < |apps[1..]| ==> apps[1..][j].id != apps[0].id
  {
    forall j | 0 <= j < |apps[1..]| ensures apps[1..][j].id != apps[0].id {
      assert apps[1..][j] == apps[j + 1];
      assert AppIds(apps)[0] != AppIds(apps)[j + 1];
    }
  }

  lemma DistinctTail(apps: seq<App>)
    requires |apps| > 0 && DistinctIds(apps)
    ensures DistinctIds(apps[1..])
  {
    forall a, b | 0 <= a < b < |apps[1..]| ensures AppIds(apps[1..])[a] != AppIds(apps[1..])[b] {
      assert apps[1..][a] == apps[a + 1] && apps[1..][b] == apps[b + 1];
      assert AppIds(apps)[a + 1] != AppIds(apps)[b + 1];
    }
  }

  lemma CollectedCons(l: Listing, rest: seq<Listing>, id: string)
    ensures Collected([l] + rest, id) == (if l.appId == id then Entries(l) else []) + Collected(rest, id)
  {
    assert ([l] + rest)[1..] == rest;
  }

  /** The user listing and the group listing of one app together contribute
      what one listing with both would. */
  lemma EntriesSplit(id: string, users: seq<string>, groups: seq<string>)
    ensures Entries(Listing(id, users, [])) + Entries(Listing(id, [], groups))
            == Entries(Listing(id, users, groups))
  {
    var l := Entries(Listing(id, users, []));
    var m := Entries(Listing(id, [], groups));
    var all := Entries(Listing(id, users, groups));
    assert |l + m| == |all|;
    forall k | 0 <= k < |all| ensures (l + m)[k] == all[k] {
      if k < |users| {
        assert (l + m)[k] == l[k];
      } else {
        assert (l + m)[k] == m[k - |users|];
        assert all[|users| + (k - |users|)] == GroupAssignment(groups[k - |users|]);
      }
    }
  }

  lemma GatheredCons(apps: seq<App>, users: seq<seq<string>>, groups: seq<seq<string>>)
    requires |users| == |apps| && |groups| == |apps| && |apps| > 0
    ensures Gathered(apps, users, groups)
            == [Listing(apps[0].id, users[0], [])]
               + ([Listing(apps[0].id, [], groups[0])] + Gathered(apps[1..], users[1..], groups[1..]))
  {
  }

  /** Listings gathered for other apps contribute nothing. */
  lemma {:induction false} CollectedAbsent(apps: seq<App>, users: seq<seq<string>>, groups: seq<seq<string>>, id: string)
    requires |users| == |apps| && |groups| == |apps|
    requires forall j :: 0 <= j < |apps| ==> apps[j].id != id
    ensures Collected(Gathered(apps, users, groups), id) == []
  {
    if |apps| > 0 {
      var rest := Gathered(apps[1..], users[1..], groups[1..]);
      GatheredCons(apps, users, groups);
      CollectedCons(Listing(apps[0].id, users[0], []), [Listing(apps[0].id, [], groups[0])] + rest, id);
      CollectedCons(Listing(apps[0].id, [], groups[0]), rest, id);
      assert forall j :: 0 <= j < |apps[1..]| ==> apps[1..][j].id != id by {
        forall j | 0 <= j < |apps[1..]| ensures apps[1..][j].id != id {
          assert apps[1..][j] == apps[j + 1];
        }
      }
      CollectedAbsent(apps[1..], users[1..], groups[1..], id);
    }
  }
}
