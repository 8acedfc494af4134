/**
 * Host mode: `dns_name_to_instance` maps the private DNS name of every running
 * instance to its instance id, and `host_mode` prints the `instance_metadata`
 * record of the instance found under the requested name.
 */
module HostLookup {
  import opened Values
  import opened Instances
  import opened HostMetadata
  import opened LastWinsDicts

  /** The DNS name and the id of the instance can both be read. */
  predicate Resolvable(inst: Instance)
  {
    inst.privateDnsName.Got? && inst.id.Got?
  }

  /** Every instance of `xs` is resolvable. */
  predicate AllResolvable(xs: seq<Instance>)
  {
    forall i :: 0 <= i < |xs| ==> Resolvable(xs[i])
  }

  /** The (DNS name, id) pairs in the order `dns_name_to_instance` assigns them. */
  function NamePairs(xs: seq<Instance>): (ps: seq<(Value, Value)>)
    requires AllResolvable(xs)
    ensures |ps| == |xs|
    ensures forall i :: 0 <= i < |xs| ==> ps[i] == (xs[i].privateDnsName.value, xs[i].id.value)
  {
    seq(|xs|, i requires 0 <= i < |xs| => (xs[i].privateDnsName.value, xs[i].id.value))
  }

  /** One more instance: the pairs after the next iteration of `dns_name_to_instance`. */
  lemma NamePairsSnoc(xs: seq<Instance>, i: int)
    requires 0 <= i < |xs| && AllResolvable(xs[..i]) && Resolvable(xs[i])
    ensures AllResolvable(xs[..i + 1])
    ensures NamePairs(xs[..i + 1]) == NamePairs(xs[..i]) + [(xs[i].privateDnsName.value, xs[i].id.value)]
  {
  }

  /**
   * `dns_name_to_instance`: `ExitOne` as soon as reading an id or a DNS name
   * raises; otherwise every DNS name bound to the id of the last instance
   * carrying it.
   */
  method DnsNameToInstance(running: seq<Instance>) returns (r: Result<map<Value, Value>>)
    ensures r.Ok? <==> AllResolvable(running)
    ensures r.Ok? ==> r.value == LastWins(NamePairs(running))
  {
    var instanceName2Id := map[];
    for i := 0 to |running|
      invariant AllResolvable(running[..i])
      invariant instanceName2Id == LastWins(NamePairs(running[..i]))
    {
      var instance := running[i];
      if instance.id.Raises? || instance.privateDnsName.Raises? {
        return ExitOne;
      }
      NamePairsSnoc(running, i);
      LastWinsSnoc(NamePairs(running[..i]), instance.privateDnsName.value, instance.id.value);
      instanceName2Id := instanceName2Id[instance.privateDnsName.value := instance.id.value];
    }
    assert running[..|running|] == running;
    return Ok(instanceName2Id);
  }

  /**
   * A name is found exactly when some running instance carries it, and then
   * it maps to the id of the last such instance.
   */
  lemma {:induction false} NameLookup(running: seq<Instance>, name: Value)
    requires AllResolvable(running)
    ensures name in LastWins(NamePairs(running))
        <==> exists i :: 0 <= i < |running| && running[i].privateDnsName.value == name
    ensures name in LastWins(NamePairs(running)) ==>
      exists i :: 0 <= i < |running| && running[i].privateDnsName.value == name &&
        LastWins(NamePairs(running))[name] == running[i].id.value &&
        forall j :: i < j < |running| ==> running[j].privateDnsName.value != name
  {
    var ps := NamePairs(running);
    if name in LastWins(ps) {
      LastOccurrence(ps, name);
      var i :| 0 <= i < |ps| && ps[i].0 == name && IsLast(ps, i) && LastWins(ps)[name] == ps[i].1;
      assert running[i].privateDnsName.value == name;
      forall j | i < j < |running| ensures running[j].privateDnsName.value != name {
        assert ps[j].0 != ps[i].0;
      }
    } else {
      forall i | 0 <= i < |running| ensures running[i].privateDnsName.value != name {
        assert ps[i].0 in LastWins(ps);
      }
    }
  }

  /**
   * `host_mode`: the record of the instance the name resolves to. `describe`
   * stands for `ec2.Instance(id)`, which yields the instance for an id or
   * raises. A missing name, or a failure of either step, ends with exit status 1.
   */
  method HostMode(running: seq<Instance>, describe: Value -> Result<Instance>, host: string)
    returns (r: Result<Metadata>)
    ensures r.Ok? <==>
      AllResolvable(running) && Str(host) in LastWins(NamePairs(running)) &&
      describe(LastWins(NamePairs(running))[Str(host)]).Ok?
    ensures r.Ok? ==> r.value == MetadataOf(describe(LastWins(NamePairs(running))[Str(host)]).value)
  {
    var instanceName2Id := DnsNameToInstance(running);
    if instanceName2Id.ExitOne? {
      return ExitOne;
    }
    if Str(host) !in instanceName2Id.value {
      return ExitOne;
    }
    var instance := describe(instanceName2Id.value[Str(host)]);
    if instance.ExitOne? {
      return ExitOne;
    }
    var info := InstanceMetadata(instance.value);
    return Ok(info);
  }
}
