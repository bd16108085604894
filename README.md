# kubegen credential issuer, modelled in Dafny

kubegen is a small web service that hands out short-lived kubeconfig files.
Its one piece of logic is the handler behind `POST /api/generate-kubeconfig`
(`generate_kubeconfig` in `app.py`). Given a namespace and a service-account
name, it:

1. rejects the request with a 400 if either is missing or empty;
2. loads the in-cluster configuration;
3. reads the service account and creates it, with only its name set, when
   the read answers 404;
4. requests a token for it that lasts `int(tokenDuration)` seconds
   (3600 by default);
5. takes the API server address from the pod's environment;
6. reads the pod's CA file and base64-encodes its UTF-8 bytes;
7. returns a kubeconfig with one cluster (`openshift`), one user, one
   context and that context selected.

Any exception raised in steps 2 to 6 becomes a 500 and no document is
returned.

The model has one module per concern:

| module | file | what it models |
|---|---|---|
| `Wrappers`, `Bytes` | wrappers.dfy | `Option`, `Result`, bytes |
| `Utf8` | utf8.dfy | `str.encode('utf-8')` and Python's strict UTF-8 decoder, with both round trips |
| `TextFile` | textfile.dfy | `open(path, 'r').read()`: strict UTF-8 decoding plus universal-newline translation |
| `Base64` | base64.dfy | `base64.b64encode` (section 4 of RFC 4648) and a strict, canonical decoder, with both round trips and the length |
| `PyInt` | pyint.dfy | the JSON values of a request body and what Python's `int()` makes of each, strings included |
| `Cluster` | cluster.dfy | the API server: namespaces, stored service accounts, a call log, and the three CoreV1Api calls as methods of the class `ApiServer` |
| `Endpoint` | endpoint.dfy | endpoint resolution from the environment and the `server` field |
| `Kubeconfig` | kubeconfig.dfy | the document, its assembly, and how a client follows `current-context` to its cluster and user |
| `Issuer` | issuer.dfy | the handler: the spec function `Issue`, the methods `EnsureServiceAccount` and `GenerateKubeconfig` proved against it, and the request-level properties |

The cluster is an object whose state the handler changes. `ApiServer`
holds the existing namespaces (never changed), the stored service accounts
(a map from namespace and name to the account) and the log of calls it
received. Anything the stored state does not decide comes from an `Oracle`
value passed in with the request:

- whether the in-cluster configuration loads;
- a failure injected into the read, the create or the token request;
- the opaque token text.

The environment is a map. The CA file is passed in as its bytes, or `None`
when it cannot be opened.

Some behaviour of the code is worth stating outright:

- The code has no external-URL override. The cluster name is the literal
  `"openshift"` (app.py:74), and the default token lifetime is the literal
  3600 (app.py:30).
- Endpoint resolution has two steps (app.py:62-64). When
  `KUBERNETES_PORT_443_TCP_ADDR` is unset or empty, the fallback already
  starts with `https://`. app.py:83 then adds a second one, so the server
  reads `https://https://host:port`. `Endpoint.FallbackDoublesScheme`
  states this.
- The CA file is opened in text mode (app.py:66). Every `\r\n` and every
  lone `\r` becomes `\n` before re-encoding (`TextFile.TranslateIsReplace`).
  So the embedded data decodes to the file's own bytes exactly when the file
  holds no carriage return (`Issuer.EmbeddedCaDecodes`).
  `TextFile.CrLfIsTranslated` shows the bytes `\r\n` coming back as `\n`.
  A file that is not valid UTF-8 makes the request fail.
- Steps run in source order, and nothing is rolled back. So a request that
  fails after provisioning (bad `tokenDuration`, token refused, missing
  environment variable, unreadable CA) keeps the accounts that provisioning
  left, including one it created (`Issuer.OnlyProvisioningWrites`).

## Model

| member | source | states |
|---|---|---|
| `Issuer.ValidationComesFirst` | app.py:28-36 | the response is the 400 "namespace and serviceAccountName are required" exactly when namespace or serviceAccountName is missing or empty; then no cluster call is made and nothing is stored; otherwise the first call is the read of that account |
| `Issuer.TokenLifetime` | app.py:30-58 | without tokenDuration the lifetime is 3600, otherwise int(tokenDuration); every token request is for the requested (namespace, name) with that lifetime |
| `Issuer.Provision` | app.py:39-46 | create-if-absent: the stored accounts are unchanged or gain exactly the requested account carrying only its name; on success the account exists; the first call is always the read; a create is attempted exactly when the read answered 404, and then the step's error and accounts follow the create's answer: its failure propagates and stores nothing |
| `Issuer.ProvisionOutcomes` | app.py:39-46 | read succeeds: state unchanged, no create; read 404: one create with the name-only body; if the create succeeds exactly one account is added (size grows by one), if it fails its error propagates and nothing changes; a create for a name already stored in an existing namespace answers 409, so losing a race to create it fails the request; any other read error propagates and nothing changes |
| `Issuer.ProvisionCreatesIfAbsent` | app.py:39-46 | with no injected failure and an existing namespace, provisioning succeeds and stores the named account if and only if it was absent |
| `Issuer.ProvisionIdempotent` | app.py:39-46 | after a successful provisioning, a second one succeeds, stores nothing new and makes only the read call |
| `Issuer.EnsureServiceAccount` | app.py:39-46 | the method's error, new accounts and appended calls are those of `Provision`; the cluster's consistency invariant is kept |
| `Issuer.OnlyProvisioningWrites` | app.py:35-105 | over a whole request the stored accounts stay consistent and change at most by adding the requested account, absent before, carrying only its name; every create call sends that name-only body; for a valid request that reaches the cluster the final accounts are those provisioning left, whatever later step fails |
| `Issuer.OkExactlyWhenEveryStepSucceeds` | app.py:35-105 | a valid request gets a document exactly when the configuration loads, provisioning, int(), the token request, endpoint resolution, opening and decoding the CA file all succeed; otherwise it is a 500 |
| `Issuer.SuccessfulIssue` | app.py:54-100 | a 200 carries a self-contained document: cluster `openshift`, current context `sa@openshift`, user named `sa`; following the current context gives the resolved server, the encoded CA, the minted token and the requested namespace verbatim; the token was requested for the same (namespace, name) that was read and is now stored |
| `Issuer.EmbeddedCaDecodes` | app.py:66-84 | the certificate-authority-data of a 200 base64-decodes to the UTF-8 bytes of the CA text and has length 4·⌈n/3⌉; it decodes to the file's own bytes exactly when the file holds no carriage return |
| `Issuer.RepeatedRequestCreatesNothing` | app.py:39-59 | repeating a request that succeeded makes no create call and leaves the stored accounts as they were, unless its read fails |
| `Issuer.GenerateKubeconfig` | app.py:26-105 | the handler method's response, new accounts and appended call log equal those of `Issue`; the cluster stays consistent |
| `Endpoint.AddressTakesPrecedence` | app.py:62-63 | a non-empty KUBERNETES_PORT_443_TCP_ADDR is the cluster URL, whatever host and port are set to |
| `Endpoint.ServiceFallback` | app.py:63-64 | otherwise the URL is `https://HOST:PORT`; it fails exactly when HOST or PORT is missing, naming HOST first |
| `Endpoint.FallbackDoublesScheme` | app.py:62-83 | in the fallback branch the server field is `https://https://HOST:PORT` |
| `Endpoint.Server` | app.py:83 | the server field is `https://` followed by the cluster URL, in either branch |
| `Kubeconfig.Assemble` | app.py:77-100 | the document has exactly one cluster, user and context; current-context is the context's name, `sa@cluster`; the context names the cluster and user entries and holds the namespace |
| `Kubeconfig.SelfContainedSelects` | app.py:77-100 | any document with one cluster, user and context linked by name resolves, through current-context, to those entries |
| `Kubeconfig.AssembleSelects` | app.py:77-100 | following the assembled document's current context gives back the server, CA data, token and namespace it was built from |
| `Base64.Encode` | app.py:71 | the encoding has length 4·⌈n/3⌉ and consists of alphabet characters and padding only |
| `Base64.DecodeEncode` | app.py:71 | decoding the encoding of any byte sequence returns it |
| `Base64.EncodeDecode` | app.py:71 | any string the strict decoder accepts is the encoding of what it decodes to |
| `Utf8.Encode` | app.py:71 | a string's UTF-8 encoding has at least as many bytes as the string has characters |
| `Utf8.DecodeEncode` | app.py:71 | strict decoding returns every string from its UTF-8 encoding |
| `Utf8.EncodeDecode` | app.py:67 | bytes the strict decoder accepts are the encoding of what they decode to |
| `TextFile.TranslateNewlines` | app.py:66-67 | text read in text mode has no carriage return, is no longer than the decoded file, and equals it when the file had none |
| `TextFile.TranslateIsReplace` | app.py:66-67 | universal-newline translation equals replacing every `\r\n` by `\n` and then every remaining `\r` by `\n` |
| `TextFile.TranslateKeepsText` | app.py:66-67 | translation keeps every character other than `\r` and `\n`, in order |
| `TextFile.TranslateCountsNewlines` | app.py:66-67 | the translated text holds one `\n` for each `\n` of the file plus one for each `\r` not followed by `\n` |
| `TextFile.ReadTextPreservesBytes` | app.py:66-71 | a valid UTF-8 file without carriage returns reads as text whose UTF-8 encoding is the file itself |
| `TextFile.ReadTextChangesCrFiles` | app.py:66-71 | a readable file holding a carriage return never reads as text whose UTF-8 encoding is the file itself |
| `Utf8.AsciiByteOfChar` | app.py:71 | an ASCII character occurs in a string exactly when its byte occurs in the string's UTF-8 encoding |
| `TextFile.ReadTextFails` | app.py:66-67 | reading raises exactly when the file is not valid UTF-8 |
| `TextFile.CrLfIsTranslated` | app.py:66-67 | the file bytes `\r\n` read back as `\n`, so they are not re-encoded as they were |
| `PyInt.ParseShow` | app.py:51 | int() of the decimal notation of any integer returns that integer |
| `PyInt.IntOfJson` | app.py:30-51 | int() keeps JSON integers, reads their decimal strings, maps booleans to 1 and 0, and raises on null and on the empty string |
| `Cluster.AfterCreate` | app.py:44 | a create keeps the stored accounts consistent with the namespaces; when it succeeds the body is stored under its name and that is the only new key; every account already stored keeps its value |
| `Cluster.ApiServer.ReadNamespacedServiceAccount` | app.py:40 | the read returns the stored account of that name, a 404 or the injected failure; it is logged and stores nothing |
| `Cluster.ApiServer.CreateNamespacedServiceAccount` | app.py:43-44 | the create stores the body under its name when the namespace exists and the name is free (404 and 409 otherwise); it is logged |
| `Cluster.ApiServer.CreateNamespacedServiceAccountToken` | app.py:49-59 | the token request returns the minted token for an existing account (404 otherwise); it is logged with its lifetime and stores nothing |

## Left out

- Flask routing, `send_from_directory`, JSON parsing and serialisation, and `app.run` (app.py:6, app.py:12-14, app.py:102, app.py:107-108). These are framework plumbing; responses are the datatype `Issuer.Response`.
- A request body that is not a JSON object (`data.get` raises outside the try block). The framework answers that, not the handler.
- `get_namespaces` (app.py:16-23). It is a read-only passthrough with no logic.
- `config.load_incluster_config()` and the real Kubernetes client (app.py:8-10). They are foreign network code. Whether the configuration loads, and every call's failure, come from the `Oracle`; the token text is opaque.
- The generated client models' own validation. For example, building `V1TokenRequestSpec` without `audiences` (app.py:49-53) may raise ValueError before any token request is sent; the model can only express that as a `tokenFault` after a logged `RequestToken`. The cluster's limits on token lifetimes are also left to the injected answer.
- Reading `/var/run/secrets/kubernetes.io/serviceaccount/ca.crt` (app.py:66-67) is file I/O. The file's bytes, or their absence, are a parameter, decoded under a UTF-8 locale.
- The text of exception messages, and so the `{"error": ...}` string. `Issuer.Error` records which step raised and the API status.
- namespace and serviceAccountName values that are non-string JSON (numbers, booleans, arrays). They pass validation when truthy, but the model takes these fields as strings or absent.
- PyInt.IntOf: covers int, bool, string, null, array and object. It leaves out JSON floats (which `int()` truncates) and non-ASCII Unicode decimal digits in strings.
- PyInt.ParseInt: does not model the limit on the number of digits `int()` accepts from a string (4300 by default in recent Python versions).
- Concurrent first-time creation of the same account. The handler runs sequentially per request. `Issuer.ProvisionOutcomes` covers the losing side: a create for a name already stored answers 409, and that error fails the request.
- The browser front end (frontend/app.js). It is UI code only.
