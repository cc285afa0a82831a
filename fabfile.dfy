/** The configuration side of fabfile.py: the Fabric `env` object, the
    per-host property tree that `process_node_properties` fills from a
    cluster's machine list, the per-host lookup of `HostPropertyProxy`,
    `load_cluster`, which merges a cluster's settings into `env`, the path
    rule of `with_virtualenv`, and the listing of `print_node_properties`.

    `env` is a class whose fields the operations update. The YAML file is
    given as a map from cluster name to its parsed entry. Python exceptions
    (`AttributeError` for an `env` attribute that is not set, `KeyError`,
    `TypeError`) are `FabError` values; the assignments made before one of
    them stay made. */
module Fabfile {
  import opened Wrappers
  import opened Text

  /** The YAML and `env` values the code looks at. */
  datatype Value =
    | Null
    | Str(s: string)
    | Bool(b: bool)
    | Num(n: int)
    | Items(items: seq<string>)
    | Members(members: set<string>)

  datatype FabError =
    | MissingAttribute(name: string)
    | MissingKey(key: string)
    | NotCombinable(key: string)
    | NotText(what: string)
    | UnknownCluster(name: string)

  /** A cluster member: a bare host name, or a mapping that holds `hostname`
      and that host's own properties. */
  datatype Member = Plain(name: string) | Props(fields: map<string, Value>)

  /** A cluster's YAML entry: its settings and, unless absent, `machines`. */
  datatype ClusterInfo = ClusterInfo(settings: map<string, Value>, machines: Option<seq<Member>>)

  type Tree = map<string, map<string, Value>>

  /** `ALL_PROPERTIES`. */
  const AllProperties: seq<string> := ["hostname", "branch", "remote", "indico_dir", "virtualenv", "plugins", "cern_plugins"]

  /** Python truthiness. */
  predicate Truthy(v: Value)
  {
    match v
    case Null => false
    case Str(s) => s != ""
    case Bool(b) => b
    case Num(n) => n != 0
    case Items(xs) => xs != []
    case Members(xs) => xs != {}
  }

  // ---------------------------------------------------------------------------
  // `process_node_properties`.

  /** One member: its host name and the property map stored for it (the
      mapping without `hostname`, or an empty map for a bare name). */
  function Admit(m: Member): (r: Result<(string, map<string, Value>), FabError>)
    ensures m.Plain? ==> r == Success((m.name, map[]))
    ensures m.Props? && r.Success? ==>
              "hostname" in m.fields && m.fields["hostname"] == Str(r.value.0) && r.value.1 == m.fields - {"hostname"}
    ensures r.Failure? <==> m.Props? && ("hostname" !in m.fields || !m.fields["hostname"].Str?)
    ensures r.Success? ==> r.value == (HostOf(m), PropsOf(m))
  {
    match m
    case Plain(name) => Success((name, map[]))
    case Props(fields) =>
      if "hostname" !in fields then Failure(MissingKey("hostname"))
      else if !fields["hostname"].Str? then Failure(NotText("hostname"))
      else Success((fields["hostname"].s, fields - {"hostname"}))
  }

  /** The loop of `process_node_properties`: the tree after it, the host list
      and the error that stopped it. */
  function Absorb(tree: Tree, members: seq<Member>): (Tree, seq<string>, Option<FabError>)
    decreases |members|
  {
    if |members| == 0 then (tree, [], None)
    else
      match Admit(members[0])
      case Failure(e) => (tree, [], Some(e))
      case Success((host, props)) =>
        var (t, hosts, err) := Absorb(tree[host := props], members[1..]);
        (t, [host] + hosts, err)
  }

  lemma AbsorbStep(t: Tree, members: seq<Member>, i: nat)
    requires i < |members|
    ensures Admit(members[i]).Failure? ==> Absorb(t, members[i..]) == (t, [], Some(Admit(members[i]).error))
    ensures Admit(members[i]).Success? ==>
      var h := Admit(members[i]).value.0;
      var r := Absorb(t[h := Admit(members[i]).value.1], members[i + 1..]);
      Absorb(t, members[i..]) == (r.0, [h] + r.1, r.2)
  {
    assert members[i..][0] == members[i];
    assert members[i..][1..] == members[i + 1..];
  }

  function HostOf(m: Member): string
  {
    match m
    case Plain(name) => name
    case Props(fields) => if "hostname" in fields && fields["hostname"].Str? then fields["hostname"].s else ""
  }

  /** The properties stored for a member. */
  function PropsOf(m: Member): map<string, Value>
  {
    match m
    case Plain(_) => map[]
    case Props(fields) => fields - {"hostname"}
  }

  /** The host does not come up again after position `i`. */
  predicate LastOccurrence(members: seq<Member>, i: int)
    requires 0 <= i < |members|
  {
    forall j :: i < j < |members| ==> HostOf(members[j]) != HostOf(members[i])
  }

  /** `env.host_properties.<attr>`: the host's own value, else the `env`
      attribute, else `None`. */
  function Property(tree: Tree, attrs: map<string, Value>, host: Option<string>, attr: string): (v: Value)
    ensures host.Some? && host.value in tree && attr in tree[host.value] ==> v == tree[host.value][attr]
    ensures !(host.Some? && host.value in tree && attr in tree[host.value]) ==>
              v == (if attr in attrs then attrs[attr] else Null)
  {
    var own := if host.Some? && host.value in tree then tree[host.value] else map[];
    if attr in own then own[attr] else if attr in attrs then attrs[attr] else Null
  }

  // ---------------------------------------------------------------------------
  // `load_cluster`.

  /** `cluster_info.get(key, env.key)`: the default is evaluated first, so an
      unset `env` attribute fails even when the cluster has the key. */
  function Setting(settings: map<string, Value>, attrs: map<string, Value>, key: string): (r: Result<Value, FabError>)
    ensures r.Failure? <==> key !in attrs
    ensures r.Success? ==> r.value == if key in settings then settings[key] else attrs[key]
  {
    if key !in attrs then Failure(MissingAttribute(key))
    else if key in settings then Success(settings[key])
    else Success(attrs[key])
  }

  /** Python's `+` on the two values the code adds. */
  function Concat(a: Value, b: Value, key: string): Result<Value, FabError>
  {
    if a.Items? && b.Items? then Success(Items(a.items + b.items))
    else if a.Str? && b.Str? then Success(Str(a.s + b.s))
    else Failure(NotCombinable(key))
  }

  /** `set(...)` of a list or a string. */
  function ToSet(v: Value, key: string): Result<Value, FabError>
  {
    match v
    case Items(xs) => Success(Members(set x | x in xs))
    case Str(s) => Success(Members(set i | 0 <= i < |s| :: [s[i]]))
    case Members(xs) => Success(Members(xs))
    case _ => Failure(NotCombinable(key))
  }

  /** `set(cluster_info.get(key, env.key) + cluster_info.get(extra, []))`. */
  function PluginSet(settings: map<string, Value>, attrs: map<string, Value>, key: string, extra: string)
    : Result<Value, FabError>
  {
    match Setting(settings, attrs, key)
    case Failure(e) => Failure(e)
    case Success(base) =>
      match Concat(base, if extra in settings then settings[extra] else Items([]), key)
      case Failure(e) => Failure(e)
      case Success(v) => ToSet(v, key)
  }

  datatype Loaded = Loaded(attrs: map<string, Value>, tree: Tree, error: Option<FabError>)

  /** The settings part of `load_cluster`, one assignment after the other. */
  function LoadSettings(attrs: map<string, Value>, s: map<string, Value>): Result<map<string, Value>, (map<string, Value>, FabError)>
  {
    match Setting(s, attrs, "branch")
    case Failure(e) => Failure((attrs, e))
    case Success(branch) =>
      var a1 := attrs["branch" := branch];
      match Setting(s, a1, "remote")
      case Failure(e) => Failure((a1, e))
      case Success(remote) =>
        var a2 := a1["remote" := remote];
        match Setting(s, a2, "py_version")
        case Failure(e) => Failure((a2, e))
        case Success(py) =>
          var a3 := a2["py_version" := py];
          match Setting(s, a3, "virtualenv")
          case Failure(e) => Failure((a3, e))
          case Success(venv) =>
            var a4 := a3["virtualenv" := venv];
            match PluginSet(s, a4, "plugins", "extra_plugins")
            case Failure(e) => Failure((a4, e))
            case Success(plugins) =>
              var a5 := a4["plugins" := plugins];
              match PluginSet(s, a5, "cern_plugins", "extra_cern_plugins")
              case Failure(e) => Failure((a5, e))
              case Success(cern) => Success(a5["cern_plugins" := cern])
  }

  /** `load_cluster` on a cluster that is in the file (the prompt for a
      missing one is not modelled: that case is `UnknownCluster`). */
  function LoadClusterSpec(attrs: map<string, Value>, tree: Tree, clusters: map<string, ClusterInfo>, name: string): Loaded
  {
    if name !in clusters then Loaded(attrs, tree, Some(UnknownCluster(name)))
    else
      var info := clusters[name];
      match LoadSettings(attrs, info.settings)
      case Failure((a, e)) => Loaded(a, tree, Some(e))
      case Success(a) =>
        if info.machines.None? then Loaded(a, tree, Some(MissingKey("machines")))
        else
          var (t, hosts, err) := Absorb(tree, info.machines.value);
          if err.Some? then Loaded(a, t, err)
          else Loaded(a["hosts" := Items(hosts)], t, None)
  }

  // ---------------------------------------------------------------------------
  // `with_virtualenv`: `os.path.join(venv, path_elem, '')`.

  predicate EndsWith(s: string, suffix: string)
  {
    |suffix| <= |s| && s[|s| - |suffix|..] == suffix
  }

  /** `posixpath.join` of two components. */
  function JoinPath(a: string, b: string): (r: string)
    ensures StartsWith(b, "/") ==> r == b
    ensures !StartsWith(b, "/") && (a == "" || EndsWith(a, "/")) ==> r == a + b
    ensures !StartsWith(b, "/") && a != "" && !EndsWith(a, "/") ==> r == a + "/" + b
  {
    if StartsWith(b, "/") then b
    else if a == "" || EndsWith(a, "/") then a + b
    else a + "/" + b
  }

  // ---------------------------------------------------------------------------
  // `print_node_properties`.

  function RenderNumber(n: int): string
  {
    if n < 0 then "-" + Decimal(-n) else Decimal(n)
  }

  /** How a value is printed: lists in their order, sets sorted, both joined
      with `', '`; the rest as `str` shows it. */
  function Render(v: Value): string
  {
    match v
    case Null => "None"
    case Str(s) => s
    case Bool(b) => if b then "True" else "False"
    case Num(n) => RenderNumber(n)
    case Items(xs) => Join(", ", xs)
    case Members(xs) => Join(", ", SortedElements(xs))
  }

  /** The map `print_node_properties` reads: the host's own (or an empty
      one), with `hostname` set to the host. */
  function Shown(tree: Tree, hostname: string): map<string, Value>
  {
    (if hostname in tree then tree[hostname] else map[])["hostname" := Str(hostname)]
  }

  function PropertyLine(props: map<string, Value>, attrs: map<string, Value>, key: string): (string, string)
  {
    (key, Render(if key in props then props[key] else if key in attrs then attrs[key] else Null))
  }

  function PropertyLines(props: map<string, Value>, attrs: map<string, Value>, keys: seq<string>): seq<(string, string)>
    decreases |keys|
  {
    if |keys| == 0 then [] else [PropertyLine(props, attrs, keys[0])] + PropertyLines(props, attrs, keys[1..])
  }

  // ---------------------------------------------------------------------------
  // `env`.

  class Env {
    /** The attributes of `env`, set from `config.py` and by the tasks. */
    var attrs: map<string, Value>
    /** `env._host_property_tree`. */
    var tree: Tree
    /** `env.host`, the host a task runs on, if any. */
    var host: Option<string>

    constructor(attrs: map<string, Value>, host: Option<string>)
      ensures this.attrs == attrs && this.tree == map[] && this.host == host
    {
      this.attrs := attrs;
      this.tree := map[];
      this.host := host;
    }

    /** `env.host_properties.<attr>` (and `[attr]`). */
    function HostProperty(attr: string): Value
      reads this
    {
      Property(tree, attrs, host, attr)
    }

    method ProcessNodeProperties(members: seq<Member>) returns (res: Result<seq<string>, FabError>)
      modifies this
      ensures tree == Absorb(old(tree), members).0
      ensures Absorb(old(tree), members).2.None? ==> res == Success(Absorb(old(tree), members).1)
      ensures Absorb(old(tree), members).2.Some? ==> res == Failure(Absorb(old(tree), members).2.value)
      ensures attrs == old(attrs) && host == old(host)
    {
      ghost var spec := Absorb(tree, members);
      var t := tree;
      var hostList: seq<string> := [];
      var i := 0;
      assert members[i..] == members;
      while i < |members|
        invariant 0 <= i <= |members|
        invariant tree == old(tree) && attrs == old(attrs) && host == old(host)
        invariant spec.0 == Absorb(t, members[i..]).0
        invariant spec.1 == hostList + Absorb(t, members[i..]).1
        invariant spec.2 == Absorb(t, members[i..]).2
      {
        AbsorbStep(t, members, i);
        match Admit(members[i]) {
          case Failure(e) =>
            tree := t;
            return Failure(e);
          case Success(admitted) =>
            t := t[admitted.0 := admitted.1];
            hostList := hostList + [admitted.0];
        }
        i := i + 1;
      }
      assert members[i..] == [];
      assert hostList + [] == hostList;
      tree := t;
      return Success(hostList);
    }

    method LoadCluster(clusters: map<string, ClusterInfo>, name: string) returns (err: Option<FabError>)
      modifies this
      ensures Loaded(attrs, tree, err) == LoadClusterSpec(old(attrs), old(tree), clusters, name)
      ensures host == old(host)
    {
      if name !in clusters {
        return Some(UnknownCluster(name));
      }
      var info := clusters[name];
      var s := info.settings;
      var r := Setting(s, attrs, "branch");
      if r.Failure? { return Some(r.error); }
      attrs := attrs["branch" := r.value];
      r := Setting(s, attrs, "remote");
      if r.Failure? { return Some(r.error); }
      attrs := attrs["remote" := r.value];
      r := Setting(s, attrs, "py_version");
      if r.Failure? { return Some(r.error); }
      attrs := attrs["py_version" := r.value];
      r := Setting(s, attrs, "virtualenv");
      if r.Failure? { return Some(r.error); }
      attrs := attrs["virtualenv" := r.value];
      r := PluginSet(s, attrs, "plugins", "extra_plugins");
      if r.Failure? { return Some(r.error); }
      attrs := attrs["plugins" := r.value];
      r := PluginSet(s, attrs, "cern_plugins", "extra_cern_plugins");
      if r.Failure? { return Some(r.error); }
      attrs := attrs["cern_plugins" := r.value];
      if info.machines.None? {
        return Some(MissingKey("machines"));
      }
      var hosts := ProcessNodeProperties(info.machines.value);
      if hosts.Failure? {
        return Some(hosts.error);
      }
      attrs := attrs["hosts" := Items(hosts.value)];
      return None;
    }

    /** The path `with_virtualenv` passes to the task it wraps: the host's
        virtualenv joined with `pathElem` and a trailing separator when
        `env.virtualenv` is truthy, and `''` otherwise. */
    function VirtualenvPath(pathElem: string): (r: Result<string, FabError>)
      reads this
      ensures "virtualenv" !in attrs ==> r == Failure(MissingAttribute("virtualenv"))
      ensures "virtualenv" in attrs && !Truthy(attrs["virtualenv"]) ==> r == Success("")
      ensures "virtualenv" in attrs && Truthy(attrs["virtualenv"]) ==>
                (r.Success? <==> HostProperty("virtualenv").Str?)
      ensures "virtualenv" in attrs && Truthy(attrs["virtualenv"]) && HostProperty("virtualenv").Str? ==>
                r == Success(JoinPath(JoinPath(HostProperty("virtualenv").s, pathElem), ""))
    {
      if "virtualenv" !in attrs then Failure(MissingAttribute("virtualenv"))
      else if !Truthy(attrs["virtualenv"]) then Success("")
      else
        match HostProperty("virtualenv")
        case Str(venv) => Success(JoinPath(JoinPath(venv, pathElem), ""))
        case _ => Failure(NotText("virtualenv"))
    }

    method PrintNodeProperties(hostname: string) returns (lines: seq<(string, string)>)
      modifies this
      ensures tree == if hostname in old(tree) then old(tree)[hostname := Shown(old(tree), hostname)] else old(tree)
      ensures lines == PropertyLines(Shown(old(tree), hostname), attrs, AllProperties)
      ensures attrs == old(attrs) && host == old(host)
    {
      var properties: map<string, Value> := if hostname in tree then tree[hostname] else map[];
      properties := properties["hostname" := Str(hostname)];
      if hostname in tree {
        tree := tree[hostname := properties];
      }
      lines := ListProperties(properties, attrs, AllProperties);
    }
  }

  /** The loop over `ALL_PROPERTIES`. */
  method ListProperties(properties: map<string, Value>, attrs: map<string, Value>, keys: seq<string>)
      returns (lines: seq<(string, string)>)
    ensures lines == PropertyLines(properties, attrs, keys)
  {
    lines := [];
    var k := 0;
    while k < |keys|
      invariant 0 <= k <= |keys|
      invariant |lines| == k
      invariant forall j :: 0 <= j < k ==> lines[j] == PropertyLine(properties, attrs, keys[j])
    {
      var key := keys[k];
      var default := if key in attrs then attrs[key] else Null;
      var value := if key in properties then properties[key] else default;
      lines := lines + [(key, Render(value))];
      k := k + 1;
    }
    PropertyLinesAt(properties, attrs, keys);
  }

  // ---------------------------------------------------------------------------
  // Lemmas.

  /** One host per member, in input order, when no member
      stops the loop. */
  lemma {:induction false} AbsorbHosts(tree: Tree, members: seq<Member>)
    ensures var (t, hosts, err) := Absorb(tree, members);
      && (err.None? <==> forall i :: 0 <= i < |members| ==> Admit(members[i]).Success?)
      && (err.None? ==> |hosts| == |members| && forall i :: 0 <= i < |members| ==> hosts[i] == HostOf(members[i]))
    decreases |members|
  {
    if |members| > 0 {
      match Admit(members[0])
      case Failure(_) =>
      case Success((host, props)) =>
        AbsorbHosts(tree[host := props], members[1..]);
        assert forall i :: 0 < i < |members| ==> members[1..][i - 1] == members[i];
    }
  }

  /** `t` holds `props` for host `h`. */
  predicate Stored(t: Tree, h: string, props: map<string, Value>)
  {
    h in t && t[h] == props
  }

  /** The loop leaves alone the entry of a host no member names, whether or
      not a later member stops it. */
  lemma {:induction false} AbsorbKeepsOthers(tree: Tree, members: seq<Member>, h: string)
    requires forall i :: 0 <= i < |members| ==> HostOf(members[i]) != h
    ensures h in tree ==> Stored(Absorb(tree, members).0, h, tree[h])
    ensures h !in tree ==> h !in Absorb(tree, members).0
    decreases |members|
  {
    if |members| > 0 && Admit(members[0]).Success? {
      var (host, props) := Admit(members[0]).value;
      assert members[0] in members;
      forall j | 0 <= j < |members[1..]|
        ensures HostOf(members[1..][j]) != h
      {
        assert members[1..][j] == members[j + 1];
      }
      AbsorbKeepsOthers(tree[host := props], members[1..], h);
    }
  }

  /** After the loop, a host maps to the properties of
      its last member (its mapping without `hostname`, or nothing for a bare
      name). */
  lemma {:induction false} AbsorbStoresLast(tree: Tree, members: seq<Member>, i: int)
    requires Absorb(tree, members).2.None?
    requires 0 <= i < |members| && LastOccurrence(members, i)
    ensures Stored(Absorb(tree, members).0, HostOf(members[i]), PropsOf(members[i]))
    decreases |members|
  {
    var (host, props) := Admit(members[0]).value;
    var t0 := tree[host := props];
    if i > 0 {
      assert members[1..][i - 1] == members[i];
      forall j | i - 1 < j < |members[1..]|
        ensures HostOf(members[1..][j]) != HostOf(members[1..][i - 1])
      {
        assert members[1..][j] == members[j + 1];
      }
      AbsorbStoresLast(t0, members[1..], i - 1);
    } else {
      forall j | 0 <= j < |members[1..]|
        ensures HostOf(members[1..][j]) != host
      {
        assert members[1..][j] == members[j + 1];
      }
      AbsorbKeepsOthers(t0, members[1..], host);
    }
  }

  /** After the loop, the host-level lookup for a host whose last member named
      `attr` returns that value; otherwise it falls back to `env`. */
  lemma LookupAfterAbsorb(tree: Tree, attrs: map<string, Value>, members: seq<Member>, i: int, attr: string)
    requires Absorb(tree, members).2.None?
    requires 0 <= i < |members| && LastOccurrence(members, i)
    ensures var own := PropsOf(members[i]);
      Property(Absorb(tree, members).0, attrs, Some(HostOf(members[i])), attr) ==
        if attr in own then own[attr] else if attr in attrs then attrs[attr] else Null
  {
    AbsorbStoresLast(tree, members, i);
  }

  /** A bare host name gets no properties of its own: every lookup is the
      `env` value or `None`. */
  lemma PlainMemberUsesDefaults(tree: Tree, attrs: map<string, Value>, members: seq<Member>, i: int, attr: string)
    requires Absorb(tree, members).2.None?
    requires 0 <= i < |members| && LastOccurrence(members, i) && members[i].Plain?
    ensures Property(Absorb(tree, members).0, attrs, Some(members[i].name), attr) ==
            if attr in attrs then attrs[attr] else Null
  {
    LookupAfterAbsorb(tree, attrs, members, i, attr);
  }

  /** `hostname` is never one of a host's stored properties. */
  lemma AdmitDropsHostname(m: Member)
    requires Admit(m).Success?
    ensures "hostname" !in Admit(m).value.1
    ensures Admit(m).value.0 == HostOf(m)
  {
  }

  /** The plugin set is the union of the base list (the
      cluster's, else `env`'s) and the extra list. */
  lemma PluginSetIsUnion(settings: map<string, Value>, attrs: map<string, Value>, key: string, extra: string)
    requires key in attrs
    requires (if key in settings then settings[key] else attrs[key]).Items?
    requires extra !in settings || settings[extra].Items?
    ensures PluginSet(settings, attrs, key, extra).Success?
    ensures var base := (if key in settings then settings[key] else attrs[key]).items;
      var more := if extra in settings then settings[extra].items else [];
      && PluginSet(settings, attrs, key, extra).value.Members?
      && forall x :: x in PluginSet(settings, attrs, key, extra).value.members <==> x in base || x in more
  {
    var base := (if key in settings then settings[key] else attrs[key]).items;
    var more := if extra in settings then settings[extra].items else [];
    forall x
      ensures x in base + more <==> x in base || x in more
    {
      if x in base + more {
        var k :| 0 <= k < |base + more| && (base + more)[k] == x;
        if k >= |base| {
          assert more[k - |base|] == x;
        }
      }
      if x in more {
        var k :| 0 <= k < |more| && more[k] == x;
        assert (base + more)[|base| + k] == x;
      }
    }
  }

  /** `result[k]` is the cluster's value for `k` if it has one, else `env`'s. */
  predicate TakenFrom(result: map<string, Value>, attrs: map<string, Value>, settings: map<string, Value>, k: string)
  {
    k in attrs && k in result && result[k] == if k in settings then settings[k] else attrs[k]
  }

  /** `result` keeps `env`'s value for `k`. */
  predicate Kept(result: map<string, Value>, attrs: map<string, Value>, k: string)
  {
    k in attrs && k in result && result[k] == attrs[k]
  }

  const SettingKeys: seq<string> := ["branch", "remote", "py_version", "virtualenv", "plugins", "cern_plugins"]

  lemma LoadSettingsValues(attrs: map<string, Value>, s: map<string, Value>)
    requires LoadSettings(attrs, s).Success?
    ensures var r := LoadSettings(attrs, s).value;
      && TakenFrom(r, attrs, s, "branch")
      && TakenFrom(r, attrs, s, "remote")
      && TakenFrom(r, attrs, s, "py_version")
      && TakenFrom(r, attrs, s, "virtualenv")
      && PluginSet(s, attrs, "plugins", "extra_plugins").Success?
      && "plugins" in r && r["plugins"] == PluginSet(s, attrs, "plugins", "extra_plugins").value
      && PluginSet(s, attrs, "cern_plugins", "extra_cern_plugins").Success?
      && "cern_plugins" in r && r["cern_plugins"] == PluginSet(s, attrs, "cern_plugins", "extra_cern_plugins").value
      && r.Keys == attrs.Keys
      && forall k :: k in attrs && k !in SettingKeys ==> Kept(r, attrs, k)
  {
    var a1 := attrs["branch" := Setting(s, attrs, "branch").value];
    var a2 := a1["remote" := Setting(s, a1, "remote").value];
    var a3 := a2["py_version" := Setting(s, a2, "py_version").value];
    var a4 := a3["virtualenv" := Setting(s, a3, "virtualenv").value];
    var a5 := a4["plugins" := PluginSet(s, a4, "plugins", "extra_plugins").value];
    var a6 := a5["cern_plugins" := PluginSet(s, a5, "cern_plugins", "extra_cern_plugins").value];
    assert LoadSettings(attrs, s) == Success(a6);
    assert PluginSet(s, a4, "plugins", "extra_plugins") == PluginSet(s, attrs, "plugins", "extra_plugins");
    assert PluginSet(s, a5, "cern_plugins", "extra_cern_plugins") == PluginSet(s, attrs, "cern_plugins", "extra_cern_plugins");
  }

  /** A successful load takes `branch`, `remote`,
      `py_version` and `virtualenv` from the cluster when it has them and
      keeps `env`'s otherwise, sets the two plugin sets, sets `hosts` to one
      host per machine in order, fills the tree from the machines, and leaves
      every other attribute alone. */
  lemma LoadClusterSettings(attrs: map<string, Value>, tree: Tree, clusters: map<string, ClusterInfo>, name: string)
    requires LoadClusterSpec(attrs, tree, clusters, name).error.None?
    ensures name in clusters && clusters[name].machines.Some? && LoadSettings(attrs, clusters[name].settings).Success?
    ensures var info := clusters[name];
      var r := LoadClusterSpec(attrs, tree, clusters, name);
      && r.attrs == LoadSettings(attrs, info.settings).value["hosts" := Items(Absorb(tree, info.machines.value).1)]
      && r.tree == Absorb(tree, info.machines.value).0
      && Absorb(tree, info.machines.value).2.None?
  {
  }

  /** The two errors `load_cluster` meets before any host is read: a cluster
      that is not in the file changes nothing, and a cluster without
      `machines` still leaves its settings assigned, because they are taken
      first. */
  lemma LoadClusterEarlyErrors(attrs: map<string, Value>, tree: Tree, clusters: map<string, ClusterInfo>, name: string)
    ensures name !in clusters ==>
              LoadClusterSpec(attrs, tree, clusters, name) == Loaded(attrs, tree, Some(UnknownCluster(name)))
    ensures name in clusters && clusters[name].machines.None? && LoadSettings(attrs, clusters[name].settings).Success? ==>
              LoadClusterSpec(attrs, tree, clusters, name) ==
              Loaded(LoadSettings(attrs, clusters[name].settings).value, tree, Some(MissingKey("machines")))
  {
  }

  /** With `env.virtualenv` set and a host virtualenv `venv`, the path is
      `venv/path_elem/` for a relative element without separators at its
      ends, and `venv/` for the default empty element. */
  lemma VirtualenvPathShape(e: Env, pathElem: string)
    requires "virtualenv" in e.attrs && Truthy(e.attrs["virtualenv"])
    requires e.HostProperty("virtualenv").Str?
    requires e.HostProperty("virtualenv").s != "" && !EndsWith(e.HostProperty("virtualenv").s, "/")
    requires !StartsWith(pathElem, "/")
    ensures pathElem != "" && !EndsWith(pathElem, "/") ==>
              e.VirtualenvPath(pathElem) == Success(e.HostProperty("virtualenv").s + "/" + pathElem + "/")
    ensures pathElem == "" ==> e.VirtualenvPath(pathElem) == Success(e.HostProperty("virtualenv").s + "/")
  {
    var venv := e.HostProperty("virtualenv").s;
    var joined := venv + "/" + pathElem;
    assert JoinPath(venv, pathElem) == joined;
    assert !StartsWith("", "/");
    assert e.VirtualenvPath(pathElem) == Success(JoinPath(joined, ""));
    if pathElem != "" && !EndsWith(pathElem, "/") {
      assert joined[|joined| - 1..] == pathElem[|pathElem| - 1..];
      assert joined != "" && !EndsWith(joined, "/");
      assert JoinPath(joined, "") == joined + "/" + "";
      assert joined + "/" + "" == venv + "/" + pathElem + "/";
    } else if pathElem == "" {
      assert joined[|joined| - 1..] == "/";
      assert JoinPath(joined, "") == joined + "";
      assert joined + "" == venv + "/";
    }
  }

  /** The path `VirtualenvPath` returns always ends in a separator unless it
      is empty. */
  lemma VirtualenvPathEndsInSeparator(e: Env, pathElem: string)
    requires e.VirtualenvPath(pathElem).Success? && e.VirtualenvPath(pathElem).value != ""
    ensures EndsWith(e.VirtualenvPath(pathElem).value, "/")
  {
    var venv := e.HostProperty("virtualenv").s;
    var p := JoinPath(venv, pathElem);
    assert !StartsWith("", "/");
    if p != "" && !EndsWith(p, "/") {
      assert (p + "/")[|p + "/"| - 1..] == "/";
    }
  }

  lemma {:induction false} PropertyLinesAt(props: map<string, Value>, attrs: map<string, Value>, keys: seq<string>)
    ensures |PropertyLines(props, attrs, keys)| == |keys|
    ensures forall i :: 0 <= i < |keys| ==> PropertyLines(props, attrs, keys)[i] == PropertyLine(props, attrs, keys[i])
    decreases |keys|
  {
    if |keys| > 0 {
      PropertyLinesAt(props, attrs, keys[1..]);
      assert forall i :: 0 < i < |keys| ==> keys[1..][i - 1] == keys[i];
    }
  }

  /** The listing has one line per entry of
      `ALL_PROPERTIES` in order; the `hostname` line shows the host itself; a
      host's own value wins over the `env` default, which wins over `None`. */
  lemma PrintedLines(tree: Tree, attrs: map<string, Value>, hostname: string)
    ensures var lines := PropertyLines(Shown(tree, hostname), attrs, AllProperties);
      && |lines| == |AllProperties|
      && lines[0] == ("hostname", hostname)
      && forall i :: 1 <= i < |AllProperties| ==>
           var key := AllProperties[i];
           lines[i] == (key, Render(
             if hostname in tree && key in tree[hostname] then tree[hostname][key]
             else if key in attrs then attrs[key] else Null))
  {
    PropertyLinesAt(Shown(tree, hostname), attrs, AllProperties);
  }

}
