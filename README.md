# cloudsql-proxy-inject, modelled in Dafny

`cloudsql-proxy-inject` reads a multi-document Kubernetes manifest and injects a
Cloud SQL proxy sidecar into the manifest's Deployment. It writes the result to
standard output. This project models what `main.go` does, on in-memory bytes:

- **Splitting** (`getAllResourcesBytes`). The file is cut on the literal bytes
  `"\n---"`, as Go's `bytes.Split` does: the leftmost occurrence is cut first
  and occurrences never overlap. `Sequences` holds the split and join for any
  non-empty separator. `Documents` instantiates them with `"\n---"`. It also proves that
  this separator is border-free, so split and join are inverse to each other.
- **Classification** (`extractDeploymentBytes`). Each document's kind is read
  through two library calls (`KindReader`). The last Deployment is selected.
  Every other document is kept in order. The first unreadable document, or a
  missing Deployment, is an error. `Extract.Extraction` is the reference
  definition. `Extract.ExtractDeployment` is the loop, proved equal to it.
- **Sidecar** (`setResources`, `getCloudContainer`). The container is built from
  an explicit `Config`, with quantity parsing left abstract (`Sidecar`).
- **Mutation and reassembly** (`runInjector`, `putItBack`). The credentials
  volume and the sidecar are appended to the pod spec. The encoded Deployment
  is written to a `Buffer`, then `"\n---\n"` and each other document in turn
  (`Output`, `Injector`). `Injector.RunInjector` is proved equal to the
  reference function `Injector.Injected`.

Every panic of the modelled code is an `Error` value (`Kube.Error`). Library code is
passed in as function values (`Injector.Library`): YAML-to-JSON conversion,
`Interpret`, `ParseQuantity`, the Deployment decoder and the YAML serializer.

Behaviour of the code that the model keeps as written:

- Several Deployments are not an error. The last one wins, and the earlier ones
  are dropped from the output.
- The output separator is `"\n---\n"`, not the `"\n---"` the file was split on.
  Each pass-through document therefore comes back with one extra leading
  newline (`Output.ReassembledAddsNewline`).
- When the line after a separator line is itself `---`, its leading newline is
  taken by the second separator, and an empty document appears between them.
  What then happens to it depends on how the library reads the kind of an
  empty document, which the model leaves abstract (`SeparatorLineAfterSeparator`).
- The Deployment is always written first, wherever it stood in the file.
- The Deployment is always re-encoded as YAML, whatever the input format.
- "Not found" is tested as `len(deploymentBytes) <= 0`. So a last Deployment
  whose bytes are empty also counts as not found.

## Model

| member | source | states |
|---|---|---|
| `Sequences.IndexFrom` | main.go:114 | the result is the leftmost occurrence of the separator at or after the start position, or -1 when there is none |
| `Sequences.Split` | main.go:114 | `bytes.Split` on a non-empty separator: the leftmost occurrence is cut first and occurrences do not overlap; there is always at least one piece; its other properties are `SplitPiecesAreFree`, `JoinSplit` and `SplitJoin` |
| `Sequences.SplitPiecesAreFree` | main.go:114 | no piece produced by the split contains the separator |
| `Sequences.JoinSplit` | main.go:114 | joining the pieces with the separator reproduces the input exactly |
| `Sequences.SplitJoin` | main.go:114 | for a border-free separator, splitting a join of separator-free parts gives back exactly those parts |
| `Documents.DocumentSeparatorIsBorderFree` | main.go:114 | `"\n---"` has no proper suffix that is also a prefix |
| `Documents.SplitDocuments` | main.go:114 | the file splits into at least one document, none containing `"\n---"`, and joining them with `"\n---"` gives the file byte for byte |
| `Documents.SplitOfJoinedDocuments` | main.go:114 | documents free of `"\n---"` that are joined by it split back into exactly those documents |
| `Documents.UnseparatedFileIsOneDocument` | main.go:114 | a file without `"\n---"` is a single document |
| `Documents.LeadingDashesAreNotSplit` | main.go:114 | for the one file `"---\nkind: A\n---\nkind: B"`: the documents are `"---\nkind: A"` and `"\nkind: B"` |
| `Documents.LeadingDashesStay` | main.go:114 | for every file that starts with `---`, the first document still starts with `---`: with no newline before it, it is never a separator |
| `Documents.NextDocumentKeepsNewline` | main.go:114 | for every separator-free `a` and every `b` not starting with `---`, the file `a + "\n---" + "\n" + b` splits into `a` first and a second document that starts with the newline that ended the separator line |
| `Documents.SeparatorLineAfterSeparator` | main.go:114 | when the line after a separator is `---` again, the newline is consumed by the second separator: `"a\n---\n---x"` splits into `"a"`, an empty document and `"x"` |
| `Extract.KindReader.KindOf` | main.go:121-128 | the kind of one document: `ToJSON`, then `Interpret` on its result; the first of the two that fails gives the error (`YamlToJsonError` or `InterpretError`); used by `FirstUnreadableIsEarliest` and `UnreadableDocumentFails` |
| `Extract.Extraction` | main.go:117-143 | the reference result of `extractDeploymentBytes`, characterised by `ExtractionSucceeds`, `UnreadableDocumentFails`, `MissingDeploymentFails`, `OthersIsFilter` and `LastDeploymentWins` |
| `Extract.ExtractDeployment` | main.go:117-143 | the loop returns exactly the reference extraction: last Deployment selected, others appended in order, first unreadable document or missing Deployment is an error |
| `Extract.OthersIsFilter` | main.go:130-135 | the pass-through list distributes over concatenation and keeps a single document exactly when its kind is readable and not `Deployment` |
| `Extract.OthersMembers` | main.go:130-135 | a document is passed through if and only if it occurs in the input and is readable and not a Deployment |
| `Extract.DeploymentsAreNotPassedThrough` | main.go:131-134 | no Deployment document, earlier or last, appears among the passed-through documents |
| `Extract.LastDeploymentWins` | main.go:131-132 | the selection is the Deployment that no later Deployment follows |
| `Extract.SelectedIsLastDeployment` | main.go:131-132 | a non-empty selection is a Deployment document with no Deployment after it |
| `Extract.NoDeploymentSelectsNothing` | main.go:117-136 | without a Deployment document the selection stays empty (nil) |
| `Extract.FirstUnreadableNone` | main.go:119-128 | no kind error is reported if and only if every document's kind can be read |
| `Extract.FirstUnreadableIsEarliest` | main.go:119-128 | the reported error is that of the earliest unreadable document |
| `Extract.UnreadableDocumentFails` | main.go:121-128 | one unreadable document makes the whole extraction fail with the first such document's conversion or interpretation error, returning nothing |
| `Extract.MissingDeploymentFails` | main.go:138-140 | readable documents whose last Deployment is empty, or that have none (via `NoDeploymentSelectsNothing`), fail with "could not find deployment resource" |
| `Extract.ExtractionSucceeds` | main.go:117-143 | extraction succeeds if and only if all kinds are readable and a non-empty Deployment is selected; then the Deployment is the last one and the others are exactly the non-Deployment documents |
| `Sidecar.SetResources` | main.go:71-100 | succeeds if and only if all four quantities parse; the request and limit lists hold CPU and memory; otherwise the first failing string, in the source's order, is the error |
| `Sidecar.CloudContainer` | main.go:145-175 | fails exactly when a quantity fails; otherwise name `cloudsql-proxy`, the versioned proxy image, the five-element command, the parsed resources, run as user 2 without privilege escalation, one read-only mount of the credentials volume at `/secrets/cloudsql` |
| `Sidecar.TestSidecar` | main_test.go:30-51 | with the test's configuration the image is `gce-proxy:1.11`, the instance flag is `-instances=project-test:region-test:instance-test` and the verbose flag is `-verbose=` |
| `Output.Buffer.constructor` | main.go:64 | a new buffer is empty |
| `Output.Buffer.Write` | main.go:180-181 | writing appends the bytes to the buffer and changes nothing else |
| `Output.Reassembled` | main.go:179-182 | the bytes `putItBack` appends, `"\n---\n"` then the document for each document in order; characterised by `ReassembledAppend`, `ReassembledCons`, `ReassembledIsJoin` and `ReassembledAddsNewline` |
| `Output.PutItBack` | main.go:178-183 | the buffer's existing bytes stay, followed by `"\n---\n"` and the document for each other document in order |
| `Output.ReassembledAppend` | main.go:179-182 | the appended bytes for a concatenated list are the concatenation of the appended bytes for each part |
| `Output.ReassembledCons` | main.go:179-182 | the first document is written first, after its own separator |
| `Output.ReassembledIsJoin` | main.go:178-183 | the Deployment bytes followed by what is appended equal the join of all documents with `"\n---\n"`; nothing is appended for an empty list |
| `Output.ReassembledAddsNewline` | main.go:180 | measured against the split separator `"\n---"`, each passed-through document comes back with one extra leading newline |
| `Injector.WithSidecar` | main.go:52-60 | the Deployment with the credentials volume and the sidecar appended to the pod spec; its contract is `WithSidecarAppendsOnly` |
| `Injector.Injected` | main.go:37-69 | the reference output or error of `runInjector`, characterised by `ConfigurationErrorsComeFirst`, `InjectedOutput`, `OtherDocumentsPassThrough` and `DeploymentAndService` |
| `Injector.WithSidecarAppendsOnly` | main.go:52-60 | exactly one volume (`cloudsql-proxy-credentials`, secret `cloudsql-proxy-credentials`) and one container (the sidecar) are appended at the ends; existing entries keep content and order; nothing else changes |
| `Injector.VolumeNameCollisionNotDetected` | main.go:52-59 | a pod that already has a volume of that name ends up with two volumes of that name |
| `Injector.RunInjector` | main.go:37-69 | the step-by-step run, with in-place appends and a buffer, returns exactly the reference output or error |
| `Injector.ConfigurationErrorsComeFirst` | main.go:38-42 | a bad quantity fails the run with that quantity's error whatever the file holds |
| `Injector.InjectedOutput` | main.go:37-69 | a run succeeds if and only if the sidecar builds, all kinds are readable, a Deployment is selected and decodes; the output is then the encoded mutated Deployment followed by each other document after `"\n---\n"` |
| `Injector.InjectedFromSteps` | main.go:44-66 | when the three steps succeed, the output is the encoded mutated Deployment followed by the reassembled other documents |
| `Injector.OtherDocumentsPassThrough` | main.go:42-66 | for a file written as documents joined by `"\n---"`, every non-Deployment document reaches the output byte for byte and in order, behind the encoded last Deployment |
| `Injector.ClassifyPair` | main.go:117-143 | a Deployment followed by one other document selects the Deployment and passes the other through |
| `Injector.DeploymentAndService` | main_test.go:14-70 | for the test's shape (a Deployment then a Service), the output is the encoded mutated Deployment, `"\n---\n"`, then the Service bytes unchanged |

## Left out

- File I/O is not modelled: `os.Open`, `ioutil.ReadAll` and closing the file (main.go:103-112). The file is given as a byte sequence.
- Writing to standard output (main.go:68) is not modelled. The run returns the buffer's bytes.
- Flag parsing with kingpin, the global flag variables and their defaults (main.go:19-35) are not modelled. The configuration is an explicit `Config` value.
- YAML-to-JSON conversion and `DefaultMetaFactory.Interpret` are foreign library code. They are abstract functions in `KindReader`.
- `resource.ParseQuantity` is library code. It is an abstract partial function; only its failure is propagated.
- Decoding the Deployment (`NewYAMLOrJSONDecoder`, main.go:47) and YAML serialization (main.go:62-65) are abstract functions. The exact text the serializer emits (key order, `creationTimestamp: null`, `status: {}`) is therefore not modelled, and neither is the literal expected output of the test.
- The serializer's error is ignored by main.go:65, so encoding is a total function here.
- Panics become `Error` results. Process termination and the diagnostic text are not modelled.
- The Kubernetes API objects spell out only the path the program writes: the pod spec's volumes and containers, and the sidecar's own fields. Every other field of the Deployment, its template and the pod spec is one opaque `rest` field that is carried unchanged.
