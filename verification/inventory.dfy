/**
 * The inventory document that list mode prints: one dictionary holding the
 * `_meta` entry (whose `hostvars` maps each private DNS name to its host
 * record) and one list of DNS names per tag group.
 */
module Inventory {
  import opened Values
  import opened Instances
  import opened HostMetadata
  import opened Groups
  import opened LastWinsDicts
  import opened TagDicts

  /** A value of the inventory dictionary: the `_meta` entry, or a group's host list. */
  datatype Entry = Meta(hostvars: map<Value, Metadata>) | Hosts(hosts: seq<Value>)

  /** The inventory dictionary. */
  type Doc = map<string, Entry>

  /** The key of the `_meta` entry. */
  const MetaKey: string := "_meta"

  /** `_meta` is present and holds the host records; every other key holds a host list. */
  predicate WellFormed(d: Doc)
  {
    MetaKey in d && d[MetaKey].Meta? &&
    forall g :: g in d && g != MetaKey ==> d[g].Hosts?
  }

  /** The host records of an inventory, `inventory['_meta']['hostvars']`. */
  function HostVars(d: Doc): map<Value, Metadata>
    requires WellFormed(d)
  {
    d[MetaKey].hostvars
  }

  /** `empty_inventory`: `{"_meta": {"hostvars": {}}}`. */
  function EmptyInventory(): (d: Doc)
    ensures WellFormed(d) && d.Keys == {MetaKey} && HostVars(d) == map[]
  {
    map[MetaKey := Meta(map[])]
  }

  /** The host list of key `g`, or the empty list when there is none. */
  function Existing(d: Doc, g: string): seq<Value>
  {
    if g in d && d[g].Hosts? then d[g].hosts else []
  }

  /**
   * One tag of list mode: appends the DNS name to the group's list when the
   * group is present, and creates the group with that one name otherwise.
   */
  function AddHostToGroup(d: Doc, g: string, name: Value): (r: Doc)
    requires WellFormed(d) && g != MetaKey
    ensures WellFormed(r) && r.Keys == d.Keys + {g}
    ensures forall h :: h in d && h != g ==> r[h] == d[h]
    ensures g in d ==> r[g] == Hosts(d[g].hosts + [name])
    ensures g !in d ==> r[g] == Hosts([name])
  {
    if g in d then d[g := Hosts(d[g].hosts + [name])]
    else d[g := Hosts([name])]
  }

  /** `n` copies of `x`. */
  function Repeat(x: Value, n: nat): (r: seq<Value>)
    ensures |r| == n && forall i :: 0 <= i < n ==> r[i] == x
  {
    if n == 0 then [] else Repeat(x, n - 1) + [x]
  }

  /** The keys among `ks` whose tag names group `g`. */
  function TagsInto(tags: map<string, string>, ks: set<string>, g: string): set<string>
  {
    set k | k in ks && k in tags && GroupName(k, tags[k]) == g
  }

  /** The groups named by the tags whose keys are among `ks`. */
  function GroupsOf(tags: map<string, string>, ks: set<string>): set<string>
  {
    set k | k in ks && k in tags :: GroupName(k, tags[k])
  }

  /**
   * The inventory once the host `name` has been added for every tag whose key
   * is among `ks`, in any order: each group gets the name once per tag that
   * names it.
   */
  function AddToGroups(d: Doc, name: Value, tags: map<string, string>, ks: set<string>): Doc
  {
    map g | g in d.Keys + GroupsOf(tags, ks) ::
      if g in GroupsOf(tags, ks) then Hosts(Existing(d, g) + Repeat(name, |TagsInto(tags, ks, g)|))
      else d[g]
  }

  /** With no tag processed yet, the inventory is unchanged. */
  lemma AddToGroupsNone(d: Doc, name: Value, tags: map<string, string>)
    ensures AddToGroups(d, name, tags, {}) == d
  {
  }

  /** One more key adds its tag's group to the groups named. */
  lemma GroupsOfAdd(tags: map<string, string>, ks: set<string>, k: string)
    requires k in tags
    ensures GroupsOf(tags, ks + {k}) == GroupsOf(tags, ks) + {GroupName(k, tags[k])}
  {
  }

  /** One more key counts once more for its tag's group, and for no other group. */
  lemma TagsIntoAdd(tags: map<string, string>, ks: set<string>, k: string, g: string)
    requires k in tags && k !in ks
    ensures g == GroupName(k, tags[k]) ==> |TagsInto(tags, ks + {k}, g)| == |TagsInto(tags, ks, g)| + 1
    ensures g != GroupName(k, tags[k]) ==> TagsInto(tags, ks + {k}, g) == TagsInto(tags, ks, g)
  {
    if g == GroupName(k, tags[k]) {
      assert TagsInto(tags, ks + {k}, g) == TagsInto(tags, ks, g) + {k};
    }
  }

  /**
   * Processing one more tag, whatever the order, is one `AddHostToGroup` on
   * the tag's group; groups never touch `_meta`.
   */
  lemma AddToGroupsStep(d: Doc, name: Value, tags: map<string, string>, ks: set<string>, k: string)
    requires WellFormed(d) && k in tags && k !in ks
    ensures WellFormed(AddToGroups(d, name, tags, ks))
    ensures GroupName(k, tags[k]) != MetaKey
    ensures AddToGroups(d, name, tags, ks + {k})
         == AddHostToGroup(AddToGroups(d, name, tags, ks), GroupName(k, tags[k]), name)
  {
    var g0 := GroupName(k, tags[k]);
    GroupNameNotMeta(k, tags[k]);
    GroupsKeepMeta(d, name, tags, ks);
    var d1 := AddToGroups(d, name, tags, ks);
    var d2 := AddToGroups(d, name, tags, ks + {k});
    var r := AddHostToGroup(d1, g0, name);
    GroupsOfAdd(tags, ks, k);
    assert d2.Keys == r.Keys;
    forall g | g in d2 ensures d2[g] == r[g] {
      AddToGroupsStepAt(d, name, tags, ks, k, g);
    }
  }

  /** `AddToGroupsStep` for the entry of one group `g`. */
  lemma AddToGroupsStepAt(d: Doc, name: Value, tags: map<string, string>, ks: set<string>,
                          k: string, g: string)
    requires WellFormed(d) && k in tags && k !in ks && GroupName(k, tags[k]) != MetaKey
    requires WellFormed(AddToGroups(d, name, tags, ks))
    requires g in AddToGroups(d, name, tags, ks + {k})
    ensures AddToGroups(d, name, tags, ks + {k})[g]
         == AddHostToGroup(AddToGroups(d, name, tags, ks), GroupName(k, tags[k]), name)[g]
  {
    TagsIntoAdd(tags, ks, k, g);
    GroupsOfAdd(tags, ks, k);
    if g != GroupName(k, tags[k]) {
      AddToGroupsOther(d, name, tags, ks, k, g);
    } else {
      AddToGroupsSame(d, name, tags, ks, k);
    }
  }

  /** A group other than the tag's keeps its entry. */
  lemma AddToGroupsOther(d: Doc, name: Value, tags: map<string, string>, ks: set<string>,
                         k: string, g: string)
    requires k in tags && g != GroupName(k, tags[k]) && g in AddToGroups(d, name, tags, ks + {k})
    requires TagsInto(tags, ks + {k}, g) == TagsInto(tags, ks, g)
    requires GroupsOf(tags, ks + {k}) == GroupsOf(tags, ks) + {GroupName(k, tags[k])}
    ensures g in AddToGroups(d, name, tags, ks)
    ensures AddToGroups(d, name, tags, ks + {k})[g] == AddToGroups(d, name, tags, ks)[g]
  {
  }

  /** The tag's group gains the host once more. */
  lemma AddToGroupsSame(d: Doc, name: Value, tags: map<string, string>, ks: set<string>, k: string)
    requires WellFormed(d) && k in tags && GroupName(k, tags[k]) != MetaKey
    requires WellFormed(AddToGroups(d, name, tags, ks))
    requires |TagsInto(tags, ks + {k}, GroupName(k, tags[k]))|
          == |TagsInto(tags, ks, GroupName(k, tags[k]))| + 1
    requires GroupsOf(tags, ks + {k}) == GroupsOf(tags, ks) + {GroupName(k, tags[k])}
    ensures AddToGroups(d, name, tags, ks + {k})[GroupName(k, tags[k])]
         == AddHostToGroup(AddToGroups(d, name, tags, ks), GroupName(k, tags[k]), name)
              [GroupName(k, tags[k])]
  {
  }

  /** The instances whose DNS name and tag list can be read; any other one is fatal in list mode. */
  predicate Listable(inst: Instance)
  {
    inst.privateDnsName.Got? && inst.tags.TagList?
  }

  /** The DNS name of a listable instance. */
  function NameOf(inst: Instance): Value
    requires inst.privateDnsName.Got?
  {
    inst.privateDnsName.value
  }

  /** The tag dictionary of a listable instance. */
  function TagsOf(inst: Instance): map<string, string>
    requires inst.tags.TagList?
  {
    TagMap(inst.tags.list)
  }

  /**
   * One iteration of the instance loop of `list_mode`: records the host's
   * metadata under its DNS name, then adds the host to the group of each of
   * its tags. Reading the name or iterating the tags may raise, which ends
   * list mode with exit status 1.
   */
  function Step(d: Doc, inst: Instance): (r: Result<Doc>)
    requires WellFormed(d)
    ensures r.Ok? <==> Listable(inst)
    ensures r.Ok? ==> WellFormed(r.value)
    ensures r.Ok? ==> HostVars(r.value) == HostVars(d)[NameOf(inst) := MetadataOf(inst)]
  {
    if !Listable(inst) then ExitOne
    else
      var d1 := d[MetaKey := Meta(HostVars(d)[NameOf(inst) := MetadataOf(inst)])];
      var tags := TagsOf(inst);
      AddToGroupsNone(d1, NameOf(inst), tags);
      var r := AddToGroups(d1, NameOf(inst), tags, tags.Keys);
      GroupsKeepMeta(d1, NameOf(inst), tags, tags.Keys);
      Ok(r)
  }

  /** Adding to groups leaves `_meta` as it was and keeps the inventory well formed. */
  lemma GroupsKeepMeta(d: Doc, name: Value, tags: map<string, string>, ks: set<string>)
    requires WellFormed(d)
    ensures WellFormed(AddToGroups(d, name, tags, ks))
    ensures AddToGroups(d, name, tags, ks)[MetaKey] == d[MetaKey]
  {
    forall g | g in GroupsOf(tags, ks) ensures g != MetaKey {
      var k :| k in ks && k in tags && GroupName(k, tags[k]) == g;
      GroupNameNotMeta(k, tags[k]);
    }
  }

  /** What `list_mode` prints for the running instances, or `ExitOne`. */
  function ListModeSpec(xs: seq<Instance>): (r: Result<Doc>)
    ensures r.Ok? ==> WellFormed(r.value)
  {
    if xs == [] then Ok(EmptyInventory())
    else
      match ListModeSpec(xs[..|xs| - 1])
      case ExitOne => ExitOne
      case Ok(d) => Step(d, xs[|xs| - 1])
  }

  /** Every instance of `xs` is listable. */
  predicate AllListable(xs: seq<Instance>)
  {
    forall i :: 0 <= i < |xs| ==> Listable(xs[i])
  }

  /** List mode on one more instance of `xs`, in the terms of the loop of `list_mode`. */
  lemma ListModePrefixStep(xs: seq<Instance>, i: int, d: Doc)
    requires 0 <= i < |xs| && ListModeSpec(xs[..i]) == Ok(d) && Listable(xs[i])
    ensures ListModeSpec(xs[..i + 1])
         == Ok(AddToGroups(d[MetaKey := Meta(HostVars(d)[NameOf(xs[i]) := MetadataOf(xs[i])])],
                           NameOf(xs[i]), TagsOf(xs[i]), TagsOf(xs[i]).Keys))
  {
    assert xs[..i + 1][..i] == xs[..i];
  }

  /** The instances of `xs` are listable exactly when those before the last one and the last one are. */
  lemma AllListableSnoc(xs: seq<Instance>)
    requires xs != []
    ensures AllListable(xs) <==> AllListable(xs[..|xs| - 1]) && Listable(xs[|xs| - 1])
  {
  }

  /** List mode gets past the last instance exactly when it got past the others and can list that one. */
  lemma ListModeSnocOk(xs: seq<Instance>)
    requires xs != []
    ensures ListModeSpec(xs).Ok? <==> ListModeSpec(xs[..|xs| - 1]).Ok? && Listable(xs[|xs| - 1])
  {
  }

  /** List mode succeeds exactly when every instance's DNS name and tag list can be read. */
  lemma {:induction false} ListModeOk(xs: seq<Instance>)
    ensures ListModeSpec(xs).Ok? <==> AllListable(xs)
  {
    if xs != [] {
      ListModeOk(xs[..|xs| - 1]);
      ListModeSnocOk(xs);
      AllListableSnoc(xs);
    }
  }

  /** The (DNS name, host record) pairs in the order list mode records them. */
  function HostPairs(xs: seq<Instance>): (ps: seq<(Value, Metadata)>)
    requires AllListable(xs)
    ensures |ps| == |xs|
    ensures forall i :: 0 <= i < |xs| ==> ps[i] == (NameOf(xs[i]), MetadataOf(xs[i]))
  {
    seq(|xs|, i requires 0 <= i < |xs| => (NameOf(xs[i]), MetadataOf(xs[i])))
  }

  /** The pairs of `xs` are those of the instances before the last one, then the last one's. */
  lemma HostPairsSnoc(xs: seq<Instance>)
    requires xs != [] && AllListable(xs)
    ensures AllListable(xs[..|xs| - 1])
    ensures HostPairs(xs)
         == HostPairs(xs[..|xs| - 1]) + [(NameOf(xs[|xs| - 1]), MetadataOf(xs[|xs| - 1]))]
  {
  }

  /** The last instance's record is stored under its DNS name, over the records before it. */
  lemma ListModeSnocHostVars(xs: seq<Instance>)
    requires xs != [] && ListModeSpec(xs).Ok?
    ensures ListModeSpec(xs[..|xs| - 1]).Ok? && Listable(xs[|xs| - 1])
    ensures HostVars(ListModeSpec(xs).value)
         == HostVars(ListModeSpec(xs[..|xs| - 1]).value)
              [NameOf(xs[|xs| - 1]) := MetadataOf(xs[|xs| - 1])]
  {
  }

  /**
   * The host records of the printed inventory: every DNS name, bound to the
   * record of the last instance with that name.
   */
  lemma {:induction false} ListModeHostVars(xs: seq<Instance>)
    requires ListModeSpec(xs).Ok?
    ensures AllListable(xs)
    ensures HostVars(ListModeSpec(xs).value) == LastWins(HostPairs(xs))
  {
    ListModeOk(xs);
    if xs != [] {
      var front := xs[..|xs| - 1];
      var x := xs[|xs| - 1];
      ListModeSnocHostVars(xs);
      ListModeHostVars(front);
      HostPairsSnoc(xs);
      LastWinsSnoc(HostPairs(front), NameOf(x), MetadataOf(x));
    }
  }

  /** How many tags of a listable instance name group `g`. */
  function TagCount(inst: Instance, g: string): nat
    requires Listable(inst)
  {
    |TagsInto(TagsOf(inst), TagsOf(inst).Keys, g)|
  }

  /**
   * The host list group `g` should end up with: the instances in order, each
   * DNS name once per tag of that instance naming the group.
   */
  function GroupHosts(xs: seq<Instance>, g: string): seq<Value>
    requires AllListable(xs)
  {
    if xs == [] then []
    else
      var front := xs[..|xs| - 1];
      assert AllListable(front) by {
        assert forall i :: 0 <= i < |front| ==> front[i] == xs[i];
      }
      GroupHosts(front, g) + Repeat(NameOf(xs[|xs| - 1]), TagCount(xs[|xs| - 1], g))
  }

  /** A group is named by a tag exactly when some tag counts for it. */
  lemma GroupsOfCount(tags: map<string, string>, g: string)
    ensures g in GroupsOf(tags, tags.Keys) <==> |TagsInto(tags, tags.Keys, g)| > 0
  {
    if g in GroupsOf(tags, tags.Keys) {
      var k :| k in tags && GroupName(k, tags[k]) == g;
      assert k in TagsInto(tags, tags.Keys, g);
    }
  }

  /** One instance of list mode on group `g`: its entry gains the instance's DNS name once per tag. */
  lemma StepGroup(d: Doc, inst: Instance, g: string)
    requires WellFormed(d) && Listable(inst) && g != MetaKey
    ensures g in Step(d, inst).value <==> g in d || TagCount(inst, g) > 0
    ensures g in Step(d, inst).value ==>
      Step(d, inst).value[g] == Hosts(Existing(d, g) + Repeat(NameOf(inst), TagCount(inst, g)))
  {
    var tags := TagsOf(inst);
    GroupsOfCount(tags, g);
    if TagCount(inst, g) == 0 {
      assert Repeat(NameOf(inst), 0) == [];
    }
  }

  /**
   * The groups of the printed inventory: a group is present exactly when some
   * tag of some instance names it, and it lists the instances in order, each
   * once per tag that names the group.
   */
  lemma {:induction false} ListModeGroups(xs: seq<Instance>, g: string)
    requires ListModeSpec(xs).Ok? && g != MetaKey
    ensures AllListable(xs)
    ensures g in ListModeSpec(xs).value <==> GroupHosts(xs, g) != []
    ensures g in ListModeSpec(xs).value ==> ListModeSpec(xs).value[g] == Hosts(GroupHosts(xs, g))
  {
    ListModeOk(xs);
    if xs != [] {
      var front := xs[..|xs| - 1];
      var x := xs[|xs| - 1];
      ListModeGroups(front, g);
      var d := ListModeSpec(front).value;
      assert ListModeSpec(xs) == Step(d, x);
      StepGroup(d, x, g);
      assert Existing(d, g) == GroupHosts(front, g);
    }
  }

  /** With no running instance, list mode prints the empty inventory. */
  lemma ListModeEmpty()
    ensures ListModeSpec([]) == Ok(map[MetaKey := Meta(map[])])
  {
  }

  /** Once an instance has ended list mode, no later instance changes the outcome. */
  lemma {:induction false} ListModeExitPersists(xs: seq<Instance>, ys: seq<Instance>)
    requires ListModeSpec(xs) == ExitOne
    ensures ListModeSpec(xs + ys) == ExitOne
  {
    ListModeOk(xs);
    ListModeOk(xs + ys);
    var i :| 0 <= i < |xs| && !Listable(xs[i]);
    assert (xs + ys)[i] == xs[i];
  }
}
