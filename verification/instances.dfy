/** The EC2 instance record as the script reads it (a boto3 `ec2.Instance`). */
module Instances {
  import opened Values

  /** The attributes that `instance_metadata` reads, one constructor per attribute. */
  datatype Field =
    | AmiLaunchIndex | Architecture | ClientToken | PrivateDnsName | Hypervisor
    | ImageId | InstanceId | InstanceLifecycle | InstanceType | KernelId | KeyName
    | Platform | PrivateIpAddress | PublicDnsName | PublicIpAddress | RamdiskId
    | RootDeviceName | RootDeviceType | SourceDestCheck | SpotInstanceRequestId
    | SriovNetSupport | StateTransitionReason | SubnetId | VirtualizationType | VpcId

  /** One element of the provider's tag list, `{'Key': key, 'Value': value}`. */
  datatype Tag = Tag(key: string, value: string)

  /**
   * Reading `instance.tags`: it may raise, it is None for an instance that
   * carries no tags, or it is the list of tag records.
   */
  datatype TagsAttr = TagsRaise | NoTags | TagList(list: seq<Tag>)

  /** An instance record; every attribute read is fixed in advance and may raise. */
  datatype Instance = Instance(
    id: Attr,
    amiLaunchIndex: Attr,
    architecture: Attr,
    clientToken: Attr,
    privateDnsName: Attr,
    hypervisor: Attr,
    imageId: Attr,
    instanceId: Attr,
    instanceLifecycle: Attr,
    instanceType: Attr,
    kernelId: Attr,
    keyName: Attr,
    platform: Attr,
    privateIpAddress: Attr,
    publicDnsName: Attr,
    publicIpAddress: Attr,
    ramdiskId: Attr,
    rootDeviceName: Attr,
    rootDeviceType: Attr,
    sourceDestCheck: Attr,
    spotInstanceRequestId: Attr,
    sriovNetSupport: Attr,
    stateTransitionReason: Attr,
    subnetId: Attr,
    virtualizationType: Attr,
    vpcId: Attr,
    tags: TagsAttr)

  /** The boto3 name of an attribute. */
  function FieldName(f: Field): (name: string)
    ensures |name| > 0
  {
    match f
    case AmiLaunchIndex => "ami_launch_index"
    case Architecture => "architecture"
    case ClientToken => "client_token"
    case PrivateDnsName => "private_dns_name"
    case Hypervisor => "hypervisor"
    case ImageId => "image_id"
    case InstanceId => "instance_id"
    case InstanceLifecycle => "instance_lifecycle"
    case InstanceType => "instance_type"
    case KernelId => "kernel_id"
    case KeyName => "key_name"
    case Platform => "platform"
    case PrivateIpAddress => "private_ip_address"
    case PublicDnsName => "public_dns_name"
    case PublicIpAddress => "public_ip_address"
    case RamdiskId => "ramdisk_id"
    case RootDeviceName => "root_device_name"
    case RootDeviceType => "root_device_type"
    case SourceDestCheck => "source_dest_check"
    case SpotInstanceRequestId => "spot_instance_request_id"
    case SriovNetSupport => "sriov_net_support"
    case StateTransitionReason => "state_transition_reason"
    case SubnetId => "subnet_id"
    case VirtualizationType => "virtualization_type"
    case VpcId => "vpc_id"
  }

  /** `getattr(instance, f)` for the attributes of `Field`. */
  function Read(inst: Instance, f: Field): Attr
  {
    match f
    case AmiLaunchIndex => inst.amiLaunchIndex
    case Architecture => inst.architecture
    case ClientToken => inst.clientToken
    case PrivateDnsName => inst.privateDnsName
    case Hypervisor => inst.hypervisor
    case ImageId => inst.imageId
    case InstanceId => inst.instanceId
    case InstanceLifecycle => inst.instanceLifecycle
    case InstanceType => inst.instanceType
    case KernelId => inst.kernelId
    case KeyName => inst.keyName
    case Platform => inst.platform
    case PrivateIpAddress => inst.privateIpAddress
    case PublicDnsName => inst.publicDnsName
    case PublicIpAddress => inst.publicIpAddress
    case RamdiskId => inst.ramdiskId
    case RootDeviceName => inst.rootDeviceName
    case RootDeviceType => inst.rootDeviceType
    case SourceDestCheck => inst.sourceDestCheck
    case SpotInstanceRequestId => inst.spotInstanceRequestId
    case SriovNetSupport => inst.sriovNetSupport
    case StateTransitionReason => inst.stateTransitionReason
    case SubnetId => inst.subnetId
    case VirtualizationType => inst.virtualizationType
    case VpcId => inst.vpcId
  }

  /** No attribute that `instance_metadata` reads raises. */
  predicate NoRaise(inst: Instance)
  {
    inst.amiLaunchIndex.Got? && inst.architecture.Got? && inst.clientToken.Got? &&
    inst.privateDnsName.Got? && inst.hypervisor.Got? && inst.imageId.Got? &&
    inst.instanceId.Got? && inst.instanceLifecycle.Got? && inst.instanceType.Got? &&
    inst.kernelId.Got? && inst.keyName.Got? && inst.platform.Got? &&
    inst.privateIpAddress.Got? && inst.publicDnsName.Got? && inst.publicIpAddress.Got? &&
    inst.ramdiskId.Got? && inst.rootDeviceName.Got? && inst.rootDeviceType.Got? &&
    inst.sourceDestCheck.Got? && inst.spotInstanceRequestId.Got? && inst.sriovNetSupport.Got? &&
    inst.stateTransitionReason.Got? && inst.subnetId.Got? && inst.virtualizationType.Got? &&
    inst.vpcId.Got?
  }
}
