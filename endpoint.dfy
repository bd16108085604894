/**
 * Where the generated kubeconfig tells clients to find the API server: the
 * pod's environment is consulted at request time, first the address the
 * runtime injects for port 443, then the in-cluster service host and port.
 */
module Endpoint {
  import opened Wrappers

  /** os.environ at request time. */
  type Environment = map<string, string>

  const PortAddress: string := "KUBERNETES_PORT_443_TCP_ADDR"
  const ServiceHost: string := "KUBERNETES_SERVICE_HOST"
  const ServicePort: string := "KUBERNETES_SERVICE_PORT"

  /** os.environ.get(key) taken as a condition: set and non-empty. */
  predicate IsSet(env: Environment, key: string) {
    key in env && env[key] != ""
  }

  /**
   * cluster_url: the port-443 address when it is set and non-empty, otherwise
   * "https://HOST:PORT"; Failure(key) is the KeyError for the first of HOST
   * and PORT that is missing.
   */
  function ClusterUrl(env: Environment): Result<string, string> {
    var url := if PortAddress in env then Some(env[PortAddress]) else None;
    if url.Some? && url.value != "" then Success(url.value)
    else if ServiceHost !in env then Failure(ServiceHost)
    else if ServicePort !in env then Failure(ServicePort)
    else Success("https://" + env[ServiceHost] + ":" + env[ServicePort])
  }

  /** The server field of the cluster entry: always the cluster URL behind an "https://" scheme. */
  function Server(clusterUrl: string): (s: string)
    ensures |s| > |clusterUrl| && s[|s| - |clusterUrl|..] == clusterUrl
    ensures s[..|s| - |clusterUrl|] == "https://"
  {
    "https://" + clusterUrl
  }

  /** A non-empty port-443 address wins, whatever the service host and port say. */
  lemma AddressTakesPrecedence(env: Environment, host: string, port: string)
    requires IsSet(env, PortAddress)
    ensures ClusterUrl(env) == Success(env[PortAddress])
    ensures ClusterUrl(env[ServiceHost := host][ServicePort := port]) == ClusterUrl(env)
  {
  }

  /** Without that address, the URL is built from host and port, and it fails exactly when one of them is missing. */
  lemma ServiceFallback(env: Environment)
    requires !IsSet(env, PortAddress)
    ensures ClusterUrl(env).Success? <==> ServiceHost in env && ServicePort in env
    ensures ClusterUrl(env).Success? ==> ClusterUrl(env).value == "https://" + env[ServiceHost] + ":" + env[ServicePort]
    ensures ClusterUrl(env).Failure? ==> ClusterUrl(env).error == (if ServiceHost !in env then ServiceHost else ServicePort)
  {
  }

  /** In the fallback branch the server field carries the scheme twice, as written. */
  lemma FallbackDoublesScheme(env: Environment)
    requires !IsSet(env, PortAddress) && ServiceHost in env && ServicePort in env
    ensures Server(ClusterUrl(env).value) == "https://https://" + env[ServiceHost] + ":" + env[ServicePort]
  {
    var tail := env[ServiceHost] + ":" + env[ServicePort];
    assert ClusterUrl(env).value == "https://" + tail;
    assert "https://" + ("https://" + tail) == "https://https://" + tail;
  }
}
