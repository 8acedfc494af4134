/**
 * `list_mode`: builds the inventory dictionary by walking the running
 * instances, one `instance_metadata` record and one pass over the tags each.
 */
module InventoryListing {
  import opened Values
  import opened Instances
  import opened HostMetadata
  import opened Groups
  import opened TagDicts
  import opened Inventory

  /**
   * `list_mode` over the instances the provider returns: the inventory it
   * prints, or `ExitOne` when reading a DNS name or a tag list raises. The tag
   * dictionary is walked in an order the model leaves open.
   */
  method ListMode(instances: seq<Instance>) returns (r: Result<Doc>)
    ensures r == ListModeSpec(instances)
  {
    var inventory := EmptyInventory();
    for i := 0 to |instances|
      invariant ListModeSpec(instances[..i]) == Ok(inventory)
    {
      var instance := instances[i];
      ghost var before := inventory;
      var info := InstanceMetadata(instance);
      if instance.privateDnsName.Raises? {
        ListModeOk(instances);
        return ExitOne;
      }
      var name := instance.privateDnsName.value;
      inventory := inventory[MetaKey := Meta(HostVars(inventory)[name := info])];
      if !instance.tags.TagList? {
        ListModeOk(instances);
        return ExitOne;
      }
      var tags := Tags2Dict(instance.tags.list);
      ghost var start := inventory;
      ghost var done: set<string> := {};
      AddToGroupsNone(start, name, tags);
      var remaining := tags.Keys;
      while remaining != {}
        invariant done <= tags.Keys && remaining == tags.Keys - done
        invariant inventory == AddToGroups(start, name, tags, done)
        decreases remaining
      {
        var tag :| tag in remaining;
        KeyStep(tags.Keys, done, remaining, tag);
        AddToGroupsStep(start, name, tags, done, tag);
        var group := GroupName(tag, tags[tag]);
        if group in inventory {
          inventory := inventory[group := Hosts(inventory[group].hosts + [name])];
        } else {
          inventory := inventory[group := Hosts([name])];
        }
        done := done + {tag};
        remaining := remaining - {tag};
      }
      assert done == tags.Keys;
      ListModePrefixStep(instances, i, before);
    }
    assert instances[..|instances|] == instances;
    return Ok(inventory);
  }

  /** Taking one key out of those remaining moves it to those done. */
  lemma KeyStep(keys: set<string>, done: set<string>, remaining: set<string>, key: string)
    requires done <= keys && remaining == keys - done && key in remaining
    ensures key in keys && key !in done && done + {key} <= keys
    ensures remaining - {key} == keys - (done + {key})
  {
  }
}
