// The applications registered with the sending process: a singly linked list
// of records, each with its own SendList.
module Registry {
  import opened SendList

  const E_EXIST := 1
  const E_NOTFOUND := 2
  const DEL_LAST_ONE := 1
  const DEL_LATER := 2
  const S_CANCEL := 3

  class AppInfo {
    const appName: string
    const list: SendList
    var stat: int
    var next: AppInfo?

    // stat starts with whatever memory held.
    constructor (appName: string, list: SendList, stat: int)
      ensures this.appName == appName && this.list == list && this.stat == stat && next == null
    {
      this.appName := appName;
      this.list := list;
      this.stat := stat;
      next := null;
    }
  }

  // Index of the record called name, or the number of records.
  function Find(names: seq<string>, name: string): (i: nat)
    ensures i <= |names|
    ensures i < |names| <==> name in names
    ensures i < |names| ==> names[i] == name
    ensures name !in names[..i]
  {
    if names == [] then 0
    else if names[0] == name then 0
    else
      var i := Find(names[1..], name);
      assert names[..i + 1] == [names[0]] + names[1..][..i];
      i + 1
  }

  // The records of apps, linked through next from `first` on.
  ghost predicate Chain(first: AppInfo?, apps: seq<AppInfo>)
    reads apps`next
  {
    && (if apps == [] then first == null else first == apps[0] && apps[|apps| - 1].next == null)
    && (forall i | 0 <= i < |apps| - 1 :: apps[i].next == apps[i + 1])
  }

  ghost predicate Unique(apps: seq<AppInfo>) {
    forall i, j | 0 <= i < j < |apps| :: apps[i].appName != apps[j].appName
  }

  ghost function Names(apps: seq<AppInfo>): (ns: seq<string>)
    ensures |ns| == |apps| && forall i | 0 <= i < |apps| :: ns[i] == apps[i].appName
  {
    seq(|apps|, i requires 0 <= i < |apps| => apps[i].appName)
  }

  lemma ChainAt(first: AppInfo?, apps: seq<AppInfo>, i: nat)
    requires Chain(first, apps) && i <= |apps|
    ensures first == if apps == [] then null else apps[0]
    ensures i < |apps| ==> apps[i].next == if i + 1 < |apps| then apps[i + 1] else null
  {
  }

  // No record is visited twice.
  lemma Unrepeated(apps: seq<AppInfo>)
    requires Unique(apps)
    ensures forall i, j | 0 <= i < j < |apps| :: apps[i] != apps[j]
  {
  }

  lemma UniqueWithout(apps: seq<AppInfo>, i: nat)
    requires Unique(apps) && i < |apps|
    ensures Unique(apps[..i] + apps[i + 1..])
  {
  }

  lemma UniqueAt(apps: seq<AppInfo>, i: nat)
    requires Unique(apps) && i < |apps|
    ensures forall a | a in apps && a != apps[i] :: a.appName != apps[i].appName
  {
  }

  lemma Absent(apps: seq<AppInfo>, name: string)
    requires name !in Names(apps)
    ensures forall a | a in apps :: a.appName != name
  {
    forall a | a in apps
      ensures a.appName != name
    {
      var i :| 0 <= i < |apps| && apps[i] == a;
      assert Names(apps)[i] == a.appName;
    }
  }

  lemma UniquePush(apps: seq<AppInfo>, info: AppInfo)
    requires Unique(apps) && info.appName !in Names(apps)
    ensures Unique(apps + [info])
  {
    assert forall i | 0 <= i < |apps| :: Names(apps)[i] == apps[i].appName;
  }

  class ProxyClient {
    var applist: AppInfo?
    ghost var apps: seq<AppInfo>

    // The chain from applist visits each record once and no name occurs twice.
    ghost predicate Valid()
      reads this, apps`next
    {
      Chain(applist, apps) && Unique(apps)
    }

    // Every record has a well-formed list of its own.
    ghost predicate OwnLists()
      reads *
    {
      && (forall a, b | a in apps && b in apps && a != b :: a.list != b.list)
      && (forall a | a in apps :: a.list.Valid())
    }

    constructor ()
      ensures Valid() && apps == []
    {
      applist := null;
      apps := [];
    }

    // The walk of Add_App along a non-empty list: taken when a record of that
    // name was met, else tmp is the last record.
    method WalkToEnd(name: string) returns (tmp: AppInfo, taken: bool)
      requires Valid() && applist != null
      ensures taken == (name in Names(apps))
      ensures !taken ==> apps != [] && tmp == apps[|apps| - 1]
    {
      hide Unique, Chain;
      ChainAt(applist, apps, 0);
      tmp := applist;
      ghost var i := 0;
      while tmp.next != null
        invariant 0 <= i < |apps| && tmp == apps[i]
        invariant tmp.next == if i + 1 < |apps| then apps[i + 1] else null
        invariant name !in Names(apps)[..i]
        decreases |apps| - i
      {
        if tmp.appName == name {
          assert Names(apps)[i] == name;
          return tmp, true;
        }
        tmp := tmp.next;
        i := i + 1;
        ChainAt(applist, apps, i);
      }
      taken := tmp.appName == name;
      assert Names(apps)[i] == tmp.appName && Names(apps) == Names(apps)[..i] + [tmp.appName];
    }

    // A record is appended unless its name is taken. The start of its sending
    // thread is taken to succeed.
    method AddApp(info: AppInfo) returns (code: int)
      requires Valid() && info !in apps
      modifies this, info`next, apps
      ensures Valid()
      ensures code == (if info.appName in Names(old(apps)) then E_EXIST else E_OK)
      ensures apps == if code == E_OK then old(apps) + [info] else old(apps)
      ensures forall a | a in old(apps) :: a.stat == old(a.stat)
    {
      hide Unique, Chain;
      ChainAt(applist, apps, 0);
      var tmp, taken := null, false;
      if applist != null {
        tmp, taken := WalkToEnd(info.appName);
        if taken {
          return E_EXIST;
        }
      }
      UniquePush(apps, info);
      Unrepeated(apps);
      LinkLast(tmp, info);
      code := E_OK;
    }

    // The pointers of Add_App; tmp is the last record, if there is one.
    method LinkLast(tmp: AppInfo?, info: AppInfo)
      requires Chain(applist, apps) && info !in apps
      requires forall i, j | 0 <= i < j < |apps| :: apps[i] != apps[j]
      requires if apps == [] then tmp == null else tmp == apps[|apps| - 1]
      modifies this, info`next, tmp
      ensures Chain(applist, apps) && apps == old(apps) + [info]
      ensures tmp != null ==> tmp.stat == old(tmp.stat)
    {
      if tmp == null {
        applist := info;
      } else {
        tmp.next := info;
      }
      info.next := null;
      apps := apps + [info];
    }

    // Taking record i out of the chain.
    method Unlink(per: AppInfo, tmp: AppInfo, ghost i: nat)
      requires Valid() && i < |apps| && tmp == apps[i]
      requires if i == 0 then per == tmp else per == apps[i - 1]
      modifies this, per`next
      ensures Valid() && apps == old(apps)[..i] + old(apps)[i + 1..]
    {
      ChainAt(applist, apps, i);
      Unrepeated(apps);
      UniqueWithout(apps, i);
      hide Unique;
      if per == tmp {
        if tmp.next == null {
          applist := null;
        } else {
          applist := tmp.next;
        }
      } else {
        per.next := tmp.next;
      }
      ghost var was := apps;
      apps := was[..i] + was[i + 1..];
      assert forall j | 0 <= j < i :: apps[j] == was[j];
      assert forall j | i <= j < |apps| :: apps[j] == was[j + 1];
    }

    // The record of that name is taken out of the chain; the others keep their
    // order. Cancelling the thread for DEL_NOW is not modelled.
    method DelApp(appname: string, opt: int) returns (code: int)
      requires Valid()
      modifies this, apps
      ensures Valid()
      ensures var i := Find(Names(old(apps)), appname);
              if i == |old(apps)| then code == E_NOTFOUND && apps == old(apps)
              else code == E_OK && apps == old(apps)[..i] + old(apps)[i + 1..]
      ensures forall a | a in old(apps) && a.appName != appname :: a.stat == old(a.stat)
      ensures forall a | a in old(apps) && a.appName == appname ::
                a.stat == if opt in {DEL_LAST_ONE, DEL_LATER} then S_CANCEL else old(a.stat)
    {
      hide Unique, Chain, Find;
      ChainAt(applist, apps, 0);
      var per, tmp := applist, applist;
      ghost var i := 0;
      while tmp != null
        invariant 0 <= i <= |apps| && apps == old(apps) && Valid()
        invariant tmp == if i < |apps| then apps[i] else null
        invariant if i == 0 then per == tmp else per == apps[i - 1]
        invariant appname !in Names(apps)[..i]
        invariant forall a | a in apps :: a.stat == old(a.stat)
        decreases |apps| - i
      {
        if tmp.appName == appname {
          FindAt(Names(apps), appname, i);
          UniqueAt(apps, i);
          Unlink(per, tmp, i);
          if opt == DEL_LAST_ONE || opt == DEL_LATER {
            tmp.stat := S_CANCEL;
          }
          return E_OK;
        }
        per := tmp;
        ChainAt(applist, apps, i);
        tmp := tmp.next;
        i := i + 1;
      }
      FindAt(Names(apps), appname, i);
      Absent(apps, appname);
      code := E_NOTFOUND;
    }

    // The search of Add_Send_File.
    method Lookup(appname: string) returns (tmp: AppInfo?)
      requires Valid()
      ensures var i := Find(Names(apps), appname);
              if i == |apps| then tmp == null else tmp == apps[i]
      ensures forall a | a in apps && a != tmp :: a.appName != appname
    {
      hide Unique, Chain, Find;
      ChainAt(applist, apps, 0);
      tmp := applist;
      if tmp == null {
        return;
      }
      ghost var i := 0;
      ChainAt(applist, apps, i);
      while tmp.next != null && tmp.appName != appname
        invariant 0 <= i < |apps| && tmp == apps[i]
        invariant tmp.next == if i + 1 < |apps| then apps[i + 1] else null
        invariant appname !in Names(apps)[..i]
        decreases |apps| - i
      {
        tmp := tmp.next;
        i := i + 1;
        ChainAt(applist, apps, i);
      }
      if tmp.appName == appname {
        FindAt(Names(apps), appname, i);
        UniqueAt(apps, i);
      } else {
        FindAt(Names(apps), appname, |apps|);
        Absent(apps, appname);
        tmp := null;
      }
    }

    // The file goes to the list of the named application and to no other.
    method AddSendFile(appname: string, filename: string, delect: bool) returns (code: int)
      requires Valid() && OwnLists()
      modifies set a | a in apps :: a.list, set a | a in apps :: a.list.newest
      ensures apps == old(apps) && Valid() && OwnLists()
      ensures appname !in Names(apps) <==> code == E_NOTFOUND
      ensures forall a | a in apps :: if a.appName == appname
                then (a.list.State(), code) == Append(old(a.list.State()), Item(filename, delect))
                else a.list.State() == old(a.list.State())
    {
      var tmp := Lookup(appname);
      hide Valid, OwnLists;
      if tmp == null {
        return E_NOTFOUND;
      }
      code := AppendTo(tmp, filename, delect);
      if code != E_OK {
        return E_FULL;
      }
    }

    method AppendTo(app: AppInfo, filename: string, delect: bool) returns (code: int)
      requires OwnLists() && app in apps
      modifies app.list, app.list.newest
      ensures OwnLists()
      ensures (app.list.State(), code) == Append(old(app.list.State()), Item(filename, delect))
      ensures forall b | b in apps && b != app :: b.list.State() == old(b.list.State())
    {
      ghost var last := app.list.newest;
      assert last != null ==> last.owner == app.list by {
        app.list.Owned();
      }
      forall b | b in apps && b != app
        ensures b.list != app.list && last !in b.list.nodes
      {
        b.list.Owned();
      }
      hide SendList.Valid, Append, SendList.Items;
      code := app.list.AppendFile(filename, delect);
    }
  }

  lemma FindAt(names: seq<string>, name: string, i: nat)
    requires i <= |names| && name !in names[..i]
    requires i < |names| ==> names[i] == name
    ensures Find(names, name) == i
  {
  }
}
