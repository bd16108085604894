/**
 * The kubeconfig document the handler returns (apiVersion v1, kind Config):
 * one cluster, one user authenticating with a bearer token, one context
 * binding them to a namespace, and that context selected as current.
 */
module Kubeconfig {
  import opened Wrappers
  import Endpoint

  datatype ClusterEntry = ClusterEntry(server: string, certificateAuthorityData: string)
  datatype NamedCluster = NamedCluster(name: string, cluster: ClusterEntry)
  datatype UserEntry = UserEntry(token: string)
  datatype NamedUser = NamedUser(name: string, user: UserEntry)
  datatype ContextEntry = ContextEntry(cluster: string, user: string, namespace: string)
  datatype NamedContext = NamedContext(name: string, context: ContextEntry)

  datatype Kubeconfig = Kubeconfig(
    apiVersion: string,
    kind: string,
    clusters: seq<NamedCluster>,
    users: seq<NamedUser>,
    contexts: seq<NamedContext>,
    currentContext: string)

  /** The name given to the context: "{serviceAccountName}@{clusterName}". */
  function ContextName(saName: string, clusterName: string): string {
    saName + "@" + clusterName
  }

  /** Exactly one cluster, one user and one context, and the current context names them by matching names. */
  predicate SelfContained(k: Kubeconfig) {
    && |k.clusters| == 1 && |k.users| == 1 && |k.contexts| == 1
    && k.contexts[0].name == k.currentContext
    && k.contexts[0].context.cluster == k.clusters[0].name
    && k.contexts[0].context.user == k.users[0].name
  }

  /** The document built from the resolved pieces; the server field puts "https://" before the cluster URL. */
  function Assemble(clusterName: string, clusterUrl: string, caData: string, saName: string, token: string, namespace: string): (k: Kubeconfig)
    ensures SelfContained(k)
    ensures k.currentContext == ContextName(saName, clusterName)
    ensures k.clusters[0].name == clusterName && k.users[0].name == saName
    ensures k.contexts[0].context.namespace == namespace
  {
    Kubeconfig(
      "v1", "Config",
      [NamedCluster(clusterName, ClusterEntry(Endpoint.Server(clusterUrl), caData))],
      [NamedUser(saName, UserEntry(token))],
      [NamedContext(ContextName(saName, clusterName), ContextEntry(clusterName, saName, namespace))],
      ContextName(saName, clusterName))
  }

  /** What a client connects with once it has followed the current context. */
  datatype Credentials = Credentials(server: string, caData: string, token: string, namespace: string)

  /** The first entry called name, as a kubeconfig client looks entries up. */
  function Lookup<T>(entries: seq<T>, nameOf: T -> string, name: string): (r: Option<T>)
    ensures r.Some? ==> exists i :: 0 <= i < |entries| && entries[i] == r.value && nameOf(entries[i]) == name
                          && forall j :: 0 <= j < i ==> nameOf(entries[j]) != name
    ensures r.None? ==> forall i :: 0 <= i < |entries| ==> nameOf(entries[i]) != name
  {
    if entries == [] then None
    else if nameOf(entries[0]) == name then Some(entries[0])
    else Lookup(entries[1..], nameOf, name)
  }

  /** Follow current-context to its context, then its cluster and user names to their entries. */
  function Select(k: Kubeconfig): Option<Credentials> {
    match Lookup(k.contexts, (c: NamedContext) => c.name, k.currentContext)
    case None => None
    case Some(ctx) =>
      match (Lookup(k.clusters, (c: NamedCluster) => c.name, ctx.context.cluster),
             Lookup(k.users, (u: NamedUser) => u.name, ctx.context.user))
      case (Some(cluster), Some(user)) =>
        Some(Credentials(cluster.cluster.server, cluster.cluster.certificateAuthorityData, user.user.token, ctx.context.namespace))
      case _ => None
  }

  /** A self-contained document always resolves: to its only cluster, user and context. */
  lemma SelfContainedSelects(k: Kubeconfig)
    requires SelfContained(k)
    ensures Select(k) == Some(Credentials(
      k.clusters[0].cluster.server, k.clusters[0].cluster.certificateAuthorityData,
      k.users[0].user.token, k.contexts[0].context.namespace))
  {
  }

  /** The assembled document is immediately usable: following its current context yields exactly the inputs. */
  lemma AssembleSelects(clusterName: string, clusterUrl: string, caData: string, saName: string, token: string, namespace: string)
    ensures Select(Assemble(clusterName, clusterUrl, caData, saName, token, namespace))
         == Some(Credentials(Endpoint.Server(clusterUrl), caData, token, namespace))
  {
    SelfContainedSelects(Assemble(clusterName, clusterUrl, caData, saName, token, namespace));
  }
}
