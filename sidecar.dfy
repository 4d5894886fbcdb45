/**
 * The Cloud SQL proxy sidecar container (`setResources`, main.go:71-100, and
 * `getCloudContainer`, main.go:145-175), built from explicit configuration.
 */
module Sidecar {
  import opened Wrappers
  import opened Kube

  /** The command-line options the sidecar is built from (main.go:21-29). */
  datatype Config = Config(
    instance: string,
    region: string,
    project: string,
    cpuRequest: string,
    memoryRequest: string,
    cpuLimit: string,
    memoryLimit: string,
    proxyVersion: string,
    verbose: string)

  /** `resource.ParseQuantity`: the Kubernetes quantity grammar, left abstract. */
  type QuantityParser = string -> Option<Quantity>

  const ProxyContainerName: string := "cloudsql-proxy"
  const ProxyImagePrefix: string := "gcr.io/cloudsql-docker/gce-proxy:"
  const ProxyBinary: string := "/cloud_sql_proxy"
  const LogDebugFlag: string := "-log_debug_stdout=true"
  const CredentialFileFlag: string := "-credential_file=/secrets/cloudsql/credentials.json"
  const CredentialsVolumeName: string := "cloudsql-proxy-credentials"
  const CredentialsMountPath: string := "/secrets/cloudsql"
  const ProxyUser: int := 2

  function ParseOrFail(parse: QuantityParser, s: string): Result<Quantity, Error>
  {
    parse(s).ToResult(QuantityParseError(s))
  }

  /**
   * The request and limit lists: CPU and memory, parsed in the order
   * cpu request, memory request, cpu limit, memory limit; the first string
   * that does not parse is the error.
   */
  function SetResources(parse: QuantityParser, cpuRequest: string, memoryRequest: string,
                        cpuLimit: string, memoryLimit: string)
    : (r: Result<(ResourceList, ResourceList), Error>)
    ensures r.Success? <==>
      parse(cpuRequest).Some? && parse(memoryRequest).Some? && parse(cpuLimit).Some? && parse(memoryLimit).Some?
    ensures r.Success? ==>
      && r.value.0 == map[CPU := parse(cpuRequest).value, Memory := parse(memoryRequest).value]
      && r.value.1 == map[CPU := parse(cpuLimit).value, Memory := parse(memoryLimit).value]
    ensures parse(cpuRequest).None? ==> r == Failure(QuantityParseError(cpuRequest))
    ensures parse(cpuRequest).Some? && parse(memoryRequest).None? ==>
      r == Failure(QuantityParseError(memoryRequest))
    ensures parse(cpuRequest).Some? && parse(memoryRequest).Some? && parse(cpuLimit).None? ==>
      r == Failure(QuantityParseError(cpuLimit))
    ensures parse(cpuRequest).Some? && parse(memoryRequest).Some? && parse(cpuLimit).Some? && parse(memoryLimit).None? ==>
      r == Failure(QuantityParseError(memoryLimit))
  {
    var requestCPU :- ParseOrFail(parse, cpuRequest);
    var requestMemory :- ParseOrFail(parse, memoryRequest);
    var request := map[CPU := requestCPU, Memory := requestMemory];
    var limitCPU :- ParseOrFail(parse, cpuLimit);
    var limitMemory :- ParseOrFail(parse, memoryLimit);
    var limit := map[CPU := limitCPU, Memory := limitMemory];
    Success((request, limit))
  }

  /** The single read-only mount of the credentials volume. */
  const CredentialsMount: VolumeMount := VolumeMount(CredentialsVolumeName, CredentialsMountPath, true)

  /**
   * The sidecar container, starting from the zero Container and set field
   * by field as `getCloudContainer` does.  It fails exactly when one of the
   * four quantities does not parse, with that quantity's error.
   */
  function CloudContainer(config: Config, parse: QuantityParser): (r: Result<Container, Error>)
    ensures r.Success? <==>
      SetResources(parse, config.cpuRequest, config.memoryRequest, config.cpuLimit, config.memoryLimit).Success?
    ensures r.Failure? ==>
      r.error == SetResources(parse, config.cpuRequest, config.memoryRequest, config.cpuLimit, config.memoryLimit).error
      && r.error.QuantityParseError?
    ensures r.Success? ==>
      && r.value.name == "cloudsql-proxy"
      && r.value.image == "gcr.io/cloudsql-docker/gce-proxy:" + config.proxyVersion
      && r.value.command == [
           "/cloud_sql_proxy",
           "-instances=" + config.project + ":" + config.region + ":" + config.instance,
           "-log_debug_stdout=true",
           "-verbose=" + config.verbose,
           "-credential_file=/secrets/cloudsql/credentials.json"]
      && r.value.resources.requests == map[CPU := parse(config.cpuRequest).value, Memory := parse(config.memoryRequest).value]
      && r.value.resources.limits == map[CPU := parse(config.cpuLimit).value, Memory := parse(config.memoryLimit).value]
      && r.value.securityContext == Some(SecurityContext(Some(2), Some(false)))
      && r.value.volumeMounts == [VolumeMount("cloudsql-proxy-credentials", "/secrets/cloudsql", true)]
      && r.value.rest == map[]
  {
    var lists :- SetResources(parse, config.cpuRequest, config.memoryRequest, config.cpuLimit, config.memoryLimit);
    var securityContext := SecurityContext(Some(ProxyUser), Some(false));
    var c0 := EmptyContainer;
    var c1 := c0.(name := ProxyContainerName);
    var c2 := c1.(image := ProxyImagePrefix + config.proxyVersion);
    var c3 := c2.(command := [
      ProxyBinary,
      "-instances=" + config.project + ":" + config.region + ":" + config.instance,
      LogDebugFlag,
      "-verbose=" + config.verbose,
      CredentialFileFlag]);
    var c4 := c3.(resources := ResourceRequirements(requests := lists.0, limits := lists.1));
    var c5 := c4.(securityContext := Some(securityContext));
    var c6 := c5.(volumeMounts := c5.volumeMounts + [CredentialsMount]);
    Success(c6)
  }

  /**
   * The configuration of the repository's test: kingpin never parses the
   * flags there, so `verbose` keeps Go's zero value, the empty string.
   */
  const TestConfig: Config :=
    Config("instance-test", "region-test", "project-test", "5m", "8Mi", "100m", "128Mi", "1.11", "")

  /** The sidecar of the test's expected output (main_test.go:30-51). */
  lemma TestSidecar(parse: QuantityParser)
    requires parse("5m").Some? && parse("8Mi").Some? && parse("100m").Some? && parse("128Mi").Some?
    ensures CloudContainer(TestConfig, parse).Success?
    ensures CloudContainer(TestConfig, parse).value.image == "gcr.io/cloudsql-docker/gce-proxy:1.11"
    ensures CloudContainer(TestConfig, parse).value.command == [
      "/cloud_sql_proxy",
      "-instances=project-test:region-test:instance-test",
      "-log_debug_stdout=true",
      "-verbose=",
      "-credential_file=/secrets/cloudsql/credentials.json"]
  {
    assert "-instances=" + "project-test" + ":" + "region-test" + ":" + "instance-test"
        == "-instances=project-test:region-test:instance-test";
    assert "-verbose=" + "" == "-verbose=";
  }
}
