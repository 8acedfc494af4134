/**
 * The host record that `instance_metadata` builds for one instance: a dictionary
 * from `ec2_`-prefixed attribute names to attribute values, filled by 28
 * assignments in a fixed order, stopping quietly at the first attribute read
 * that raises.
 */
module HostMetadata {
  import opened Values
  import opened Instances

  /**
   * A key of the host record. `KeyOf(f)` stands for `"ec2_" + FieldName(f)`;
   * `EbsOptimizedKey` is `"ec2_ebs_optimized"`, the one key not named after
   * the attribute it is filled from.
   */
  datatype Key = KeyOf(field: Field) | EbsOptimizedKey

  /** The host record: what `instance_metadata` returns. */
  type Metadata = map<Key, Value>

  /** The dictionary key a `Key` stands for. */
  function KeyText(k: Key): (name: string)
    ensures |name| > 4 && name[..4] == "ec2_"
  {
    match k
    case KeyOf(f) => "ec2_" + FieldName(f)
    case EbsOptimizedKey => "ec2_ebs_optimized"
  }

  /** Distinct keys have distinct texts: the record has as many `ec2_` names as keys. */
  lemma KeyTextInjective(a: Key, b: Key)
    ensures KeyText(a) == KeyText(b) ==> a == b
  {
  }

  /**
   * The assignment statements of `instance_metadata`, in source order. Each
   * names the key it writes, the attribute read it writes from, and whether
   * it stores `''` in place of None.
   */
  datatype Statements = End | Assign(key: Key, read: Attr, orEmpty: bool, rest: Statements)

  /** The 28 assignments for a given instance. */
  function Body(inst: Instance): Statements
  {
    Assign(KeyOf(AmiLaunchIndex), inst.amiLaunchIndex, false,
    Assign(KeyOf(Architecture), inst.architecture, false,
    Assign(KeyOf(ClientToken), inst.clientToken, false,
    Assign(KeyOf(PrivateDnsName), inst.privateDnsName, false,
    Assign(EbsOptimizedKey, inst.privateDnsName, false,
    Assign(KeyOf(Hypervisor), inst.hypervisor, false,
    Assign(KeyOf(ImageId), inst.imageId, false,
    BodyFromInstanceId(inst))))))))
  }

  /** The assignments of `instance_metadata` from statement 8 on. */
  function BodyFromInstanceId(inst: Instance): Statements
  {
    Assign(KeyOf(InstanceId), inst.instanceId, false,
    Assign(KeyOf(InstanceLifecycle), inst.instanceLifecycle, true,
    Assign(KeyOf(InstanceType), inst.instanceType, false,
    Assign(KeyOf(KernelId), inst.kernelId, true,
    Assign(KeyOf(KeyName), inst.keyName, false,
    Assign(KeyOf(Platform), inst.platform, true,
    Assign(KeyOf(Platform), inst.platform, false,
    BodyFromPrivateDnsName(inst))))))))
  }

  /** The assignments of `instance_metadata` from statement 15 on. */
  function BodyFromPrivateDnsName(inst: Instance): Statements
  {
    Assign(KeyOf(PrivateDnsName), inst.privateDnsName, false,
    Assign(KeyOf(PrivateIpAddress), inst.privateIpAddress, false,
    Assign(KeyOf(PublicDnsName), inst.publicDnsName, false,
    Assign(KeyOf(PublicIpAddress), inst.publicIpAddress, false,
    Assign(KeyOf(RamdiskId), inst.ramdiskId, true,
    BodyFromRootDeviceName(inst))))))
  }

  /** The assignments of `instance_metadata` from statement 20 on. */
  function BodyFromRootDeviceName(inst: Instance): Statements
  {
    Assign(KeyOf(RootDeviceName), inst.rootDeviceName, false,
    Assign(KeyOf(RootDeviceType), inst.rootDeviceType, false,
    Assign(KeyOf(SourceDestCheck), inst.sourceDestCheck, false,
    Assign(KeyOf(SpotInstanceRequestId), inst.spotInstanceRequestId, true,
    Assign(KeyOf(SriovNetSupport), inst.sriovNetSupport, true,
    BodyFromStateTransitionReason(inst))))))
  }

  /** The assignments of `instance_metadata` from statement 25 on. */
  function BodyFromStateTransitionReason(inst: Instance): Statements
  {
    Assign(KeyOf(StateTransitionReason), inst.stateTransitionReason, false,
    Assign(KeyOf(SubnetId), inst.subnetId, false,
    Assign(KeyOf(VirtualizationType), inst.virtualizationType, false,
    Assign(KeyOf(VpcId), inst.vpcId, false,
    End))))
  }

  /** The value an assignment stores: `''` for None when it converts, the read value otherwise. */
  function Stored(orEmpty: bool, v: Value): (r: Value)
    ensures r == Null <==> !orEmpty && v == Null
    ensures r != v ==> orEmpty && v == Null && r == Str("")
  {
    if orEmpty && v == Null then Str("") else v
  }

  /**
   * Executes the statements on a dictionary; a read that raises ends the
   * execution and leaves the dictionary as it was (the `except: pass`).
   */
  function Run(s: Statements, m: Metadata): Metadata
  {
    match s
    case End => m
    case Assign(k, r, orEmpty, rest) =>
      match r
      case Raises => m
      case Got(v) => Run(rest, m[k := Stored(orEmpty, v)])
  }

  /** The record `instance_metadata` returns for an instance. */
  function MetadataOf(inst: Instance): Metadata
  {
    Run(Body(inst), map[])
  }

  /** `instance_metadata`: one assignment after the other, on a local dictionary. */
  method InstanceMetadata(inst: Instance) returns (m: Metadata)
    ensures m == MetadataOf(inst)
  {
    m := map[];
    ghost var s := Body(inst);
    ghost var goal := MetadataOf(inst);
    assert Run(s, m) == goal;
    if inst.amiLaunchIndex.Raises? { return; }
    m := m[KeyOf(AmiLaunchIndex) := inst.amiLaunchIndex.value];
    s := s.rest;
    assert Run(s, m) == goal;
    if inst.architecture.Raises? { return; }
    m := m[KeyOf(Architecture) := inst.architecture.value];
    s := s.rest;
    assert Run(s, m) == goal;
    if inst.clientToken.Raises? { return; }
    m := m[KeyOf(ClientToken) := inst.clientToken.value];
    s := s.rest;
    assert Run(s, m) == goal;
    if inst.privateDnsName.Raises? { return; }
    m := m[KeyOf(PrivateDnsName) := inst.privateDnsName.value];
    s := s.rest;
    assert Run(s, m) == goal;
    if inst.privateDnsName.Raises? { return; }
    m := m[EbsOptimizedKey := inst.privateDnsName.value];
    s := s.rest;
    assert Run(s, m) == goal;
    if inst.hypervisor.Raises? { return; }
    m := m[KeyOf(Hypervisor) := inst.hypervisor.value];
    s := s.rest;
    assert Run(s, m) == goal;
    if inst.imageId.Raises? { return; }
    m := m[KeyOf(ImageId) := inst.imageId.value];
    s := s.rest;
    assert Run(s, m) == goal;
    if inst.instanceId.Raises? { return; }
    m := m[KeyOf(InstanceId) := inst.instanceId.value];
    s := s.rest;
    assert Run(s, m) == goal;
    if inst.instanceLifecycle.Raises? { return; }
    if inst.instanceLifecycle.value == Null {
      m := m[KeyOf(InstanceLifecycle) := Str("")];
    } else {
      m := m[KeyOf(InstanceLifecycle) := inst.instanceLifecycle.value];
    }
    s := s.rest;
    assert Run(s, m) == goal;
    if inst.instanceType.Raises? { return; }
    m := m[KeyOf(InstanceType) := inst.instanceType.value];
    s := s.rest;
    assert Run(s, m) == goal;
    if inst.kernelId.Raises? { return; }
    if inst.kernelId.value == Null {
      m := m[KeyOf(KernelId) := Str("")];
    } else {
      m := m[KeyOf(KernelId) := inst.kernelId.value];
    }
    s := s.rest;
    assert Run(s, m) == goal;
    if inst.keyName.Raises? { return; }
    m := m[KeyOf(KeyName) := inst.keyName.value];
    s := s.rest;
    assert Run(s, m) == goal;
    if inst.platform.Raises? { return; }
    if inst.platform.value == Null {
      m := m[KeyOf(Platform) := Str("")];
    } else {
      m := m[KeyOf(Platform) := inst.platform.value];
    }
    s := s.rest;
    assert Run(s, m) == goal;
    if inst.platform.Raises? { return; }
    m := m[KeyOf(Platform) := inst.platform.value];
    s := s.rest;
    assert Run(s, m) == goal;
    if inst.privateDnsName.Raises? { return; }
    m := m[KeyOf(PrivateDnsName) := inst.privateDnsName.value];
    s := s.rest;
    assert Run(s, m) == goal;
    if inst.privateIpAddress.Raises? { return; }
    m := m[KeyOf(PrivateIpAddress) := inst.privateIpAddress.value];
    s := s.rest;
    assert Run(s, m) == goal;
    if inst.publicDnsName.Raises? { return; }
    m := m[KeyOf(PublicDnsName) := inst.publicDnsName.value];
    s := s.rest;
    assert Run(s, m) == goal;
    if inst.publicIpAddress.Raises? { return; }
    m := m[KeyOf(PublicIpAddress) := inst.publicIpAddress.value];
    s := s.rest;
    assert Run(s, m) == goal;
    if inst.ramdiskId.Raises? { return; }
    if inst.ramdiskId.value == Null {
      m := m[KeyOf(RamdiskId) := Str("")];
    } else {
      m := m[KeyOf(RamdiskId) := inst.ramdiskId.value];
    }
    s := s.rest;
    assert Run(s, m) == goal;
    if inst.rootDeviceName.Raises? { return; }
    m := m[KeyOf(RootDeviceName) := inst.rootDeviceName.value];
    s := s.rest;
    assert Run(s, m) == goal;
    if inst.rootDeviceType.Raises? { return; }
    m := m[KeyOf(RootDeviceType) := inst.rootDeviceType.value];
    s := s.rest;
    assert Run(s, m) == goal;
    if inst.sourceDestCheck.Raises? { return; }
    m := m[KeyOf(SourceDestCheck) := inst.sourceDestCheck.value];
    s := s.rest;
    assert Run(s, m) == goal;
    if inst.spotInstanceRequestId.Raises? { return; }
    if inst.spotInstanceRequestId.value == Null {
      m := m[KeyOf(SpotInstanceRequestId) := Str("")];
    } else {
      m := m[KeyOf(SpotInstanceRequestId) := inst.spotInstanceRequestId.value];
    }
    s := s.rest;
    assert Run(s, m) == goal;
    if inst.sriovNetSupport.Raises? { return; }
    if inst.sriovNetSupport.value == Null {
      m := m[KeyOf(SriovNetSupport) := Str("")];
    } else {
      m := m[KeyOf(SriovNetSupport) := inst.sriovNetSupport.value];
    }
    s := s.rest;
    assert Run(s, m) == goal;
    if inst.stateTransitionReason.Raises? { return; }
    m := m[KeyOf(StateTransitionReason) := inst.stateTransitionReason.value];
    s := s.rest;
    assert Run(s, m) == goal;
    if inst.subnetId.Raises? { return; }
    m := m[KeyOf(SubnetId) := inst.subnetId.value];
    s := s.rest;
    assert Run(s, m) == goal;
    if inst.virtualizationType.Raises? { return; }
    m := m[KeyOf(VirtualizationType) := inst.virtualizationType.value];
    s := s.rest;
    assert Run(s, m) == goal;
    if inst.vpcId.Raises? { return; }
    m := m[KeyOf(VpcId) := inst.vpcId.value];
    s := s.rest;
    assert Run(s, m) == goal;
    assert s == End && Run(s, m) == goal;
  }

  /** The keys the statements write, in order. */
  function Keys(s: Statements): (ks: seq<Key>)
    ensures |ks| == Length(s)
  {
    match s
    case End => []
    case Assign(k, _, _, rest) => [k] + Keys(rest)
  }

  /** The attribute reads the statements make, in order. */
  function Reads(s: Statements): (rs: seq<Attr>)
    ensures |rs| == Length(s)
  {
    match s
    case End => []
    case Assign(_, r, _, rest) => [r] + Reads(rest)
  }

  /** The number of statements. */
  function Length(s: Statements): nat
  {
    match s
    case End => 0
    case Assign(_, _, _, rest) => 1 + Length(rest)
  }

  /** How many statements complete before the first read that raises. */
  function Completed(s: Statements): (c: nat)
    ensures c <= Length(s)
    ensures forall i :: 0 <= i < c ==> Reads(s)[i].Got?
    ensures c < Length(s) ==> Reads(s)[c].Raises?
  {
    match s
    case End => 0
    case Assign(_, r, _, rest) => if r.Raises? then 0 else 1 + Completed(rest)
  }

  /**
   * Executing statements adds exactly the keys of the statements that
   * complete before the first raising read.
   */
  lemma {:induction false} RunKeys(s: Statements, m: Metadata)
    ensures Run(s, m).Keys == m.Keys + (set k | k in Keys(s)[..Completed(s)])
  {
    match s
    case End =>
    case Assign(k, r, orEmpty, rest) =>
      if r.Got? {
        RunKeys(rest, m[k := Stored(orEmpty, r.value)]);
        assert Keys(s)[..Completed(s)] == [k] + Keys(rest)[..Completed(rest)];
      }
  }

  /**
   * The record holds exactly the keys of the assignments that precede the
   * first attribute read that raises.
   */
  lemma MetadataKeys(inst: Instance)
    ensures MetadataOf(inst).Keys == set k | k in Keys(Body(inst))[..Completed(Body(inst))]
  {
    RunKeys(Body(inst), map[]);
  }

  /** The attribute read that fills a key. */
  function Source(inst: Instance, k: Key): Attr
  {
    match k
    case KeyOf(f) => Read(inst, f)
    case EbsOptimizedKey => inst.privateDnsName
  }

  /**
   * The keys whose None value is stored as `''`. The last write to
   * `ec2_platform` stores the raw value, so `ec2_platform` is not one of them.
   */
  predicate EmptyForNone(k: Key)
  {
    match k
    case KeyOf(InstanceLifecycle) => true
    case KeyOf(KernelId) => true
    case KeyOf(RamdiskId) => true
    case KeyOf(SpotInstanceRequestId) => true
    case KeyOf(SriovNetSupport) => true
    case _ => false
  }

  /** The value the record holds for a key whose attribute read succeeds. */
  function Expected(inst: Instance, k: Key): Value
    requires Source(inst, k).Got?
  {
    Stored(EmptyForNone(k), Source(inst, k).value)
  }

  /** Every key present in `m` holds the value its attribute read gives. */
  predicate Agrees(inst: Instance, m: Metadata)
  {
    forall k :: k in m ==> Source(inst, k).Got? && m[k] == Expected(inst, k)
  }

  /**
   * Every statement that completes stores the value its key should end with,
   * or is immediately followed by a statement that writes the same key from
   * the same read and stores that value.
   */
  predicate Faithful(inst: Instance, s: Statements)
  {
    match s
    case End => true
    case Assign(k, r, orEmpty, rest) =>
      Faithful(inst, rest) &&
      (r.Got? ==>
        Source(inst, k) == r &&
        (Stored(orEmpty, r.value) == Expected(inst, k) ||
         (rest.Assign? && rest.key == k && rest.read == r &&
          Stored(rest.orEmpty, r.value) == Expected(inst, k))))
  }

  /** Running faithful statements on an agreeing record leaves an agreeing record. */
  lemma {:induction false} RunAgrees(inst: Instance, s: Statements, m: Metadata)
    requires Faithful(inst, s) && Agrees(inst, m)
    ensures Agrees(inst, Run(s, m))
  {
    match s
    case End =>
    case Assign(k, r, orEmpty, rest) =>
      if r.Got? {
        var m' := m[k := Stored(orEmpty, r.value)];
        if Stored(orEmpty, r.value) == Expected(inst, k) {
          RunAgrees(inst, rest, m');
        } else {
          var m'' := m'[k := Stored(rest.orEmpty, r.value)];
          assert Run(rest, m') == Run(rest.rest, m'');
          RunAgrees(inst, rest.rest, m'');
        }
      }
  }

  /** The assignments from statement 25 on are faithful. */
  lemma FaithfulFromStateTransitionReason(inst: Instance)
    ensures Faithful(inst, BodyFromStateTransitionReason(inst))
  {
    var s0 := BodyFromStateTransitionReason(inst);
    var s1 := s0.rest;
    var s2 := s1.rest;
    var s3 := s2.rest;
    var s4 := s3.rest;
    assert Faithful(inst, s4);
    assert Faithful(inst, s3);
    assert Faithful(inst, s2);
    assert Faithful(inst, s1);
  }

  /** The assignments from statement 20 on are faithful. */
  lemma FaithfulFromRootDeviceName(inst: Instance)
    ensures Faithful(inst, BodyFromRootDeviceName(inst))
  {
    FaithfulFromStateTransitionReason(inst);
    var s0 := BodyFromRootDeviceName(inst);
    var s1 := s0.rest;
    var s2 := s1.rest;
    var s3 := s2.rest;
    var s4 := s3.rest;
    assert Faithful(inst, s4);
    assert Faithful(inst, s3);
    assert Faithful(inst, s2);
    assert Faithful(inst, s1);
  }

  /** The assignments from statement 15 on are faithful. */
  lemma FaithfulFromPrivateDnsName(inst: Instance)
    ensures Faithful(inst, BodyFromPrivateDnsName(inst))
  {
    FaithfulFromRootDeviceName(inst);
    var s0 := BodyFromPrivateDnsName(inst);
    var s1 := s0.rest;
    var s2 := s1.rest;
    var s3 := s2.rest;
    var s4 := s3.rest;
    assert Faithful(inst, s4);
    assert Faithful(inst, s3);
    assert Faithful(inst, s2);
    assert Faithful(inst, s1);
  }

  /** The assignments from statement 8 on are faithful. */
  lemma FaithfulFromInstanceId(inst: Instance)
    ensures Faithful(inst, BodyFromInstanceId(inst))
  {
    FaithfulFromPrivateDnsName(inst);
    var s0 := BodyFromInstanceId(inst);
    var s1 := s0.rest;
    var s2 := s1.rest;
    var s3 := s2.rest;
    var s4 := s3.rest;
    var s5 := s4.rest;
    var s6 := s5.rest;
    assert Faithful(inst, s6);
    assert Faithful(inst, s5);
    assert Faithful(inst, s4);
    assert Faithful(inst, s3);
    assert Faithful(inst, s2);
    assert Faithful(inst, s1);
  }

  /** The assignments of `instance_metadata` are faithful for every instance. */
  lemma BodyFaithful(inst: Instance)
    ensures Faithful(inst, Body(inst))
  {
    FaithfulFromInstanceId(inst);
    var s0 := Body(inst);
    var s1 := s0.rest;
    var s2 := s1.rest;
    var s3 := s2.rest;
    var s4 := s3.rest;
    var s5 := s4.rest;
    var s6 := s5.rest;
    assert Faithful(inst, s6);
    assert Faithful(inst, s5);
    assert Faithful(inst, s4);
    assert Faithful(inst, s3);
    assert Faithful(inst, s2);
    assert Faithful(inst, s1);
  }

  /**
   * Whatever prefix of the assignments completes, every key present in the
   * record holds the value its attribute read gives: `ec2_ebs_optimized`
   * holds the private DNS name, `ec2_platform` the raw platform (never the
   * intermediate `''`), and the five converting keys `''` for None.
   */
  lemma MetadataAgrees(inst: Instance)
    ensures Agrees(inst, MetadataOf(inst))
  {
    BodyFaithful(inst);
    RunAgrees(inst, Body(inst), map[]);
  }

  /**
   * The three irregular keys, whenever they are present: `ec2_platform` holds
   * the raw attribute, None included; `ec2_ebs_optimized` holds the private
   * DNS name; `ec2_kernel_id` holds `''` in place of None.
   */
  lemma MetadataIrregularKeys(inst: Instance)
    ensures KeyOf(Platform) in MetadataOf(inst) ==>
      inst.platform.Got? && MetadataOf(inst)[KeyOf(Platform)] == inst.platform.value
    ensures EbsOptimizedKey in MetadataOf(inst) ==>
      inst.privateDnsName.Got? && MetadataOf(inst)[EbsOptimizedKey] == inst.privateDnsName.value
    ensures KeyOf(KernelId) in MetadataOf(inst) ==>
      inst.kernelId.Got? &&
      MetadataOf(inst)[KeyOf(KernelId)] == if inst.kernelId.value == Null then Str("") else inst.kernelId.value
  {
    MetadataAgrees(inst);
  }

  /** Some statement writes key `k`. */
  predicate Writes(s: Statements, k: Key)
  {
    s.Assign? && (s.key == k || Writes(s.rest, k))
  }

  /** No read of the statements raises. */
  predicate AllGot(s: Statements)
  {
    match s
    case End => true
    case Assign(_, r, _, rest) => r.Got? && AllGot(rest)
  }

  /** When no read raises, executing the statements writes every key they name. */
  lemma {:induction false} RunAllGot(s: Statements, m: Metadata, k: Key)
    requires AllGot(s) && (k in m || Writes(s, k))
    ensures k in Run(s, m)
  {
    match s
    case End =>
    case Assign(k', r, orEmpty, rest) =>
      RunAllGot(rest, m[k' := Stored(orEmpty, r.value)], k);
  }


  /** Statements 25 to 28 write their keys, and complete when their reads succeed. */
  lemma WritesFromStateTransitionReason(inst: Instance, k: Key)
    ensures (k in {
      KeyOf(StateTransitionReason), KeyOf(SubnetId), KeyOf(VirtualizationType),
      KeyOf(VpcId)
    })
      ==> Writes(BodyFromStateTransitionReason(inst), k)
    ensures NoRaise(inst)
      ==> AllGot(BodyFromStateTransitionReason(inst))
  {
    var s0 := BodyFromStateTransitionReason(inst);
    var s1 := s0.rest;
    var s2 := s1.rest;
    var s3 := s2.rest;
    var s4 := s3.rest;
    assert s4 == End;
    assert (k in {KeyOf(VpcId)})
      ==> Writes(s3, k);
    assert (inst.vpcId.Got?)
      ==> AllGot(s3);
    assert (k in {KeyOf(VirtualizationType), KeyOf(VpcId)})
      ==> Writes(s2, k);
    assert (inst.virtualizationType.Got? && inst.vpcId.Got?)
      ==> AllGot(s2);
    assert (k in {KeyOf(SubnetId), KeyOf(VirtualizationType), KeyOf(VpcId)})
      ==> Writes(s1, k);
    assert (inst.subnetId.Got? && inst.virtualizationType.Got? &&
            inst.vpcId.Got?)
      ==> AllGot(s1);
  }

  /** Statements 20 to 24 write their keys, and complete when their reads succeed. */
  lemma WritesFromRootDeviceName(inst: Instance, k: Key)
    ensures (k in {
      KeyOf(RootDeviceName), KeyOf(RootDeviceType), KeyOf(SourceDestCheck),
      KeyOf(SpotInstanceRequestId), KeyOf(SriovNetSupport)
    } || Writes(BodyFromStateTransitionReason(inst), k))
      ==> Writes(BodyFromRootDeviceName(inst), k)
    ensures NoRaise(inst) && AllGot(BodyFromStateTransitionReason(inst))
      ==> AllGot(BodyFromRootDeviceName(inst))
  {
    var s0 := BodyFromRootDeviceName(inst);
    var s1 := s0.rest;
    var s2 := s1.rest;
    var s3 := s2.rest;
    var s4 := s3.rest;
    assert (k in {KeyOf(SriovNetSupport)} ||
            Writes(BodyFromStateTransitionReason(inst), k))
      ==> Writes(s4, k);
    assert (inst.sriovNetSupport.Got? && AllGot(BodyFromStateTransitionReason(inst)))
      ==> AllGot(s4);
    assert (k in {KeyOf(SpotInstanceRequestId), KeyOf(SriovNetSupport)} ||
            Writes(BodyFromStateTransitionReason(inst), k))
      ==> Writes(s3, k);
    assert (inst.spotInstanceRequestId.Got? && inst.sriovNetSupport.Got? &&
            AllGot(BodyFromStateTransitionReason(inst)))
      ==> AllGot(s3);
    assert (k in {KeyOf(SourceDestCheck), KeyOf(SpotInstanceRequestId), KeyOf(SriovNetSupport)} ||
            Writes(BodyFromStateTransitionReason(inst), k))
      ==> Writes(s2, k);
    assert (inst.sourceDestCheck.Got? && inst.spotInstanceRequestId.Got? &&
            inst.sriovNetSupport.Got? && AllGot(BodyFromStateTransitionReason(inst)))
      ==> AllGot(s2);
    assert (k in {
      KeyOf(RootDeviceType), KeyOf(SourceDestCheck), KeyOf(SpotInstanceRequestId),
      KeyOf(SriovNetSupport)
    } ||
            Writes(BodyFromStateTransitionReason(inst), k))
      ==> Writes(s1, k);
    assert (inst.rootDeviceType.Got? && inst.sourceDestCheck.Got? &&
            inst.spotInstanceRequestId.Got? && inst.sriovNetSupport.Got? &&
            AllGot(BodyFromStateTransitionReason(inst)))
      ==> AllGot(s1);
  }

  /** Statements 15 to 19 write their keys, and complete when their reads succeed. */
  lemma WritesFromPrivateDnsName(inst: Instance, k: Key)
    ensures (k in {
      KeyOf(PrivateDnsName), KeyOf(PrivateIpAddress), KeyOf(PublicDnsName),
      KeyOf(PublicIpAddress), KeyOf(RamdiskId)
    } || Writes(BodyFromRootDeviceName(inst), k))
      ==> Writes(BodyFromPrivateDnsName(inst), k)
    ensures NoRaise(inst) && AllGot(BodyFromRootDeviceName(inst))
      ==> AllGot(BodyFromPrivateDnsName(inst))
  {
    var s0 := BodyFromPrivateDnsName(inst);
    var s1 := s0.rest;
    var s2 := s1.rest;
    var s3 := s2.rest;
    var s4 := s3.rest;
    assert (k in {KeyOf(RamdiskId)} ||
            Writes(BodyFromRootDeviceName(inst), k))
      ==> Writes(s4, k);
    assert (inst.ramdiskId.Got? && AllGot(BodyFromRootDeviceName(inst)))
      ==> AllGot(s4);
    assert (k in {KeyOf(PublicIpAddress), KeyOf(RamdiskId)} ||
            Writes(BodyFromRootDeviceName(inst), k))
      ==> Writes(s3, k);
    assert (inst.publicIpAddress.Got? && inst.ramdiskId.Got? &&
            AllGot(BodyFromRootDeviceName(inst)))
      ==> AllGot(s3);
    assert (k in {KeyOf(PublicDnsName), KeyOf(PublicIpAddress), KeyOf(RamdiskId)} ||
            Writes(BodyFromRootDeviceName(inst), k))
      ==> Writes(s2, k);
    assert (inst.publicDnsName.Got? && inst.publicIpAddress.Got? &&
            inst.ramdiskId.Got? && AllGot(BodyFromRootDeviceName(inst)))
      ==> AllGot(s2);
    assert (k in {
      KeyOf(PrivateIpAddress), KeyOf(PublicDnsName), KeyOf(PublicIpAddress),
      KeyOf(RamdiskId)
    } ||
            Writes(BodyFromRootDeviceName(inst), k))
      ==> Writes(s1, k);
    assert (inst.privateIpAddress.Got? && inst.publicDnsName.Got? &&
            inst.publicIpAddress.Got? && inst.ramdiskId.Got? &&
            AllGot(BodyFromRootDeviceName(inst)))
      ==> AllGot(s1);
  }

  /** Statements 8 to 14 write their keys, and complete when their reads succeed. */
  lemma WritesFromInstanceId(inst: Instance, k: Key)
    ensures (k in {
      KeyOf(InstanceId), KeyOf(InstanceLifecycle), KeyOf(InstanceType),
      KeyOf(KernelId), KeyOf(KeyName), KeyOf(Platform)
    } || Writes(BodyFromPrivateDnsName(inst), k))
      ==> Writes(BodyFromInstanceId(inst), k)
    ensures NoRaise(inst) && AllGot(BodyFromPrivateDnsName(inst))
      ==> AllGot(BodyFromInstanceId(inst))
  {
    var s0 := BodyFromInstanceId(inst);
    var s1 := s0.rest;
    var s2 := s1.rest;
    var s3 := s2.rest;
    var s4 := s3.rest;
    var s5 := s4.rest;
    var s6 := s5.rest;
    assert (k in {KeyOf(Platform)} ||
            Writes(BodyFromPrivateDnsName(inst), k))
      ==> Writes(s6, k);
    assert (inst.platform.Got? && AllGot(BodyFromPrivateDnsName(inst)))
      ==> AllGot(s6);
    assert (k in {KeyOf(Platform)} ||
            Writes(BodyFromPrivateDnsName(inst), k))
      ==> Writes(s5, k);
    assert (inst.platform.Got? && AllGot(BodyFromPrivateDnsName(inst)))
      ==> AllGot(s5);
    assert (k in {KeyOf(KeyName), KeyOf(Platform)} ||
            Writes(BodyFromPrivateDnsName(inst), k))
      ==> Writes(s4, k);
    assert (inst.keyName.Got? && inst.platform.Got? &&
            AllGot(BodyFromPrivateDnsName(inst)))
      ==> AllGot(s4);
    assert (k in {KeyOf(KernelId), KeyOf(KeyName), KeyOf(Platform)} ||
            Writes(BodyFromPrivateDnsName(inst), k))
      ==> Writes(s3, k);
    assert (inst.kernelId.Got? && inst.keyName.Got? &&
            inst.platform.Got? && AllGot(BodyFromPrivateDnsName(inst)))
      ==> AllGot(s3);
    assert (k in {
      KeyOf(InstanceType), KeyOf(KernelId), KeyOf(KeyName),
      KeyOf(Platform)
    } ||
            Writes(BodyFromPrivateDnsName(inst), k))
      ==> Writes(s2, k);
    assert (inst.instanceType.Got? && inst.kernelId.Got? &&
            inst.keyName.Got? && inst.platform.Got? &&
            AllGot(BodyFromPrivateDnsName(inst)))
      ==> AllGot(s2);
    assert (k in {
      KeyOf(InstanceLifecycle), KeyOf(InstanceType), KeyOf(KernelId),
      KeyOf(KeyName), KeyOf(Platform)
    } ||
            Writes(BodyFromPrivateDnsName(inst), k))
      ==> Writes(s1, k);
    assert (inst.instanceLifecycle.Got? && inst.instanceType.Got? &&
            inst.kernelId.Got? && inst.keyName.Got? &&
            inst.platform.Got? && AllGot(BodyFromPrivateDnsName(inst)))
      ==> AllGot(s1);
  }

  /** Statements 1 to 7 write their keys, and complete when their reads succeed. */
  lemma BodyWrites(inst: Instance, k: Key)
    ensures (k in {
      KeyOf(AmiLaunchIndex), KeyOf(Architecture), KeyOf(ClientToken),
      KeyOf(PrivateDnsName), EbsOptimizedKey, KeyOf(Hypervisor),
      KeyOf(ImageId)
    } || Writes(BodyFromInstanceId(inst), k))
      ==> Writes(Body(inst), k)
    ensures NoRaise(inst) && AllGot(BodyFromInstanceId(inst))
      ==> AllGot(Body(inst))
  {
    var s0 := Body(inst);
    var s1 := s0.rest;
    var s2 := s1.rest;
    var s3 := s2.rest;
    var s4 := s3.rest;
    var s5 := s4.rest;
    var s6 := s5.rest;
    assert (k in {KeyOf(ImageId)} ||
            Writes(BodyFromInstanceId(inst), k))
      ==> Writes(s6, k);
    assert (inst.imageId.Got? && AllGot(BodyFromInstanceId(inst)))
      ==> AllGot(s6);
    assert (k in {KeyOf(Hypervisor), KeyOf(ImageId)} ||
            Writes(BodyFromInstanceId(inst), k))
      ==> Writes(s5, k);
    assert (inst.hypervisor.Got? && inst.imageId.Got? &&
            AllGot(BodyFromInstanceId(inst)))
      ==> AllGot(s5);
    assert (k in {EbsOptimizedKey, KeyOf(Hypervisor), KeyOf(ImageId)} ||
            Writes(BodyFromInstanceId(inst), k))
      ==> Writes(s4, k);
    assert (inst.privateDnsName.Got? && inst.hypervisor.Got? &&
            inst.imageId.Got? && AllGot(BodyFromInstanceId(inst)))
      ==> AllGot(s4);
    assert (k in {
      KeyOf(PrivateDnsName), EbsOptimizedKey, KeyOf(Hypervisor),
      KeyOf(ImageId)
    } ||
            Writes(BodyFromInstanceId(inst), k))
      ==> Writes(s3, k);
    assert (inst.privateDnsName.Got? && inst.hypervisor.Got? &&
            inst.imageId.Got? && AllGot(BodyFromInstanceId(inst)))
      ==> AllGot(s3);
    assert (k in {
      KeyOf(ClientToken), KeyOf(PrivateDnsName), EbsOptimizedKey,
      KeyOf(Hypervisor), KeyOf(ImageId)
    } ||
            Writes(BodyFromInstanceId(inst), k))
      ==> Writes(s2, k);
    assert (inst.clientToken.Got? && inst.privateDnsName.Got? &&
            inst.hypervisor.Got? && inst.imageId.Got? &&
            AllGot(BodyFromInstanceId(inst)))
      ==> AllGot(s2);
    assert (k in {
      KeyOf(Architecture), KeyOf(ClientToken), KeyOf(PrivateDnsName),
      EbsOptimizedKey, KeyOf(Hypervisor), KeyOf(ImageId)
    } ||
            Writes(BodyFromInstanceId(inst), k))
      ==> Writes(s1, k);
    assert (inst.architecture.Got? && inst.clientToken.Got? &&
            inst.privateDnsName.Got? && inst.hypervisor.Got? &&
            inst.imageId.Got? && AllGot(BodyFromInstanceId(inst)))
      ==> AllGot(s1);
  }

  /** When no attribute read raises, every assignment completes. */
  lemma BodyCompletes(inst: Instance)
    requires NoRaise(inst)
    ensures AllGot(Body(inst))
  {
    BodyWrites(inst, EbsOptimizedKey);
    WritesFromInstanceId(inst, EbsOptimizedKey);
    WritesFromPrivateDnsName(inst, EbsOptimizedKey);
    WritesFromRootDeviceName(inst, EbsOptimizedKey);
    WritesFromStateTransitionReason(inst, EbsOptimizedKey);
  }

  /** Every key is written by some assignment. */
  lemma BodyWritesEveryKey(inst: Instance, k: Key)
    ensures Writes(Body(inst), k)
  {
    BodyWrites(inst, k);
    WritesFromInstanceId(inst, k);
    WritesFromPrivateDnsName(inst, k);
    WritesFromRootDeviceName(inst, k);
    WritesFromStateTransitionReason(inst, k);
    match k
    case EbsOptimizedKey =>
    case KeyOf(f) =>
      match f
      case AmiLaunchIndex =>
      case Architecture =>
      case ClientToken =>
      case PrivateDnsName =>
      case Hypervisor =>
      case ImageId =>
      case InstanceId =>
      case InstanceLifecycle =>
      case InstanceType =>
      case KernelId =>
      case KeyName =>
      case Platform =>
      case PrivateIpAddress =>
      case PublicDnsName =>
      case PublicIpAddress =>
      case RamdiskId =>
      case RootDeviceName =>
      case RootDeviceType =>
      case SourceDestCheck =>
      case SpotInstanceRequestId =>
      case SriovNetSupport =>
      case StateTransitionReason =>
      case SubnetId =>
      case VirtualizationType =>
      case VpcId =>
  }

  /**
   * An instance none of whose reads raises gets the full record: every key
   * (all 26 of them) is present, each holding the value its attribute read gives.
   */
  lemma MetadataComplete(inst: Instance)
    requires NoRaise(inst)
    ensures forall k :: Source(inst, k).Got?
    ensures forall k :: k in MetadataOf(inst) && MetadataOf(inst)[k] == Expected(inst, k)
  {
    forall k: Key ensures Source(inst, k).Got? {
      match k
      case EbsOptimizedKey =>
      case KeyOf(f) =>
        match f
        case AmiLaunchIndex =>
        case Architecture =>
        case ClientToken =>
        case PrivateDnsName =>
        case Hypervisor =>
        case ImageId =>
        case InstanceId =>
        case InstanceLifecycle =>
        case InstanceType =>
        case KernelId =>
        case KeyName =>
        case Platform =>
        case PrivateIpAddress =>
        case PublicDnsName =>
        case PublicIpAddress =>
        case RamdiskId =>
        case RootDeviceName =>
        case RootDeviceType =>
        case SourceDestCheck =>
        case SpotInstanceRequestId =>
        case SriovNetSupport =>
        case StateTransitionReason =>
        case SubnetId =>
        case VirtualizationType =>
        case VpcId =>
    }
    MetadataAgrees(inst);
    BodyCompletes(inst);
    forall k ensures k in MetadataOf(inst) {
      BodyWritesEveryKey(inst, k);
      RunAllGot(Body(inst), map[], k);
    }
  }
}
