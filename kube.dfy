/**
 * The parts of the Kubernetes API objects that the injector reads or writes
 * (k8s.io/api core/v1 and apps/v1beta1), and the errors on which main.go
 * panics.  Fields the program never touches are carried as `rest`.
 */
module Kube {
  import opened Wrappers
  import opened ByteTypes

  /** How a quantity was written (resource.Format). */
  datatype QuantityFormat = DecimalExponent | BinarySI | DecimalSI

  /**
   * A stand-in for a parsed resource.Quantity.  Parsing is abstract, so its
   * fields are never read; they do not capture every Quantity (nano-units,
   * for one).
   */
  datatype Quantity = Quantity(milliValue: int, format: QuantityFormat)

  datatype ResourceName = CPU | Memory

  type ResourceList = map<ResourceName, Quantity>

  datatype ResourceRequirements = ResourceRequirements(limits: ResourceList, requests: ResourceList)

  datatype SecurityContext = SecurityContext(runAsUser: Option<int>, allowPrivilegeEscalation: Option<bool>)

  datatype VolumeMount = VolumeMount(name: string, mountPath: string, readOnly: bool)

  datatype Container = Container(
    name: string,
    image: string,
    command: seq<string>,
    resources: ResourceRequirements,
    securityContext: Option<SecurityContext>,
    volumeMounts: seq<VolumeMount>,
    rest: map<string, string>)

  /** A Container with every field at its zero value (`v1.Container{}`). */
  const EmptyContainer: Container :=
    Container("", "", [], ResourceRequirements(map[], map[]), None, [], map[])

  datatype VolumeSource = SecretVolume(secretName: string) | OtherVolume(description: string)

  datatype Volume = Volume(name: string, source: VolumeSource)

  /** The pod template's spec: the two ordered lists the injector appends to. */
  datatype PodSpec = PodSpec(volumes: seq<Volume>, containers: seq<Container>, rest: map<string, string>)

  datatype PodTemplateSpec = PodTemplateSpec(rest: map<string, string>, spec: PodSpec)

  /**
   * A Deployment: only the pod template is spelled out.  The DeploymentSpec
   * level is folded away: its other fields (replicas, strategy, selector) and
   * the Deployment's own metadata are part of `rest`.
   */
  datatype Deployment = Deployment(rest: map<string, string>, template: PodTemplateSpec)

  /** The failures on which main.go panics. */
  datatype Error =
    | QuantityParseError(quantity: string)   // resource.ParseQuantity, main.go:72-92
    | YamlToJsonError(document: Bytes)       // k8syaml.ToJSON, main.go:121-124
    | InterpretError(json: Bytes)            // DefaultMetaFactory.Interpret, main.go:125-128
    | DeploymentNotFound                     // main.go:138-140
    | DecodeError                            // the Deployment decoder, main.go:47-50
}
