# Verified model of the MOLIT profile gate, SHACL evidence lane and fencing admission

This project models three parts of the MOLIT dataspace repository in Dafny and proves what they
decide.

**The OWL consistency gate** (`tools/profile/owl_consistency.py`). It reads finite RDF graphs, runs
five worklist searches over possibly cyclic graphs, decodes RDF lists, and merges its findings into
one verdict. Graphs are sets of triples; Python's open iteration orders appear as arbitrary orders,
so every result holds for any order. `Walks` holds the graph theory and the state that every
worklist keeps. `RdfList`, `Equivalence`, `Subclass`, `Disjointness` and `Replacement` give each
search its meaning. `SchemaConsistency`, `LocalProperties` and `ClosureConsistency` turn the
searches into findings and show what silence means. `Gate` joins them.

**The independent SHACL lane** (`tools/profile/independent_shacl.py`). `ResultPath`, `PathTree` and
`PathEncoding` treat property paths in RDF (SHACL, section 2.3.1); `ShapeRequirements`,
`ResultRecord` and `ResultEvidence` the evidence of a report, and `Relabelling`, `PathRelabelling`
and `EvidenceRelabelling` show that no blank node label shows in it; `Framing` the byte stream hashed for a distribution;
`ReleaseTree`, `ArtifactLock` and `BoundedRead` the verified load of a release; `XsdDate` the lexical
check of `xsd:date` (XML Schema Part 2, sections 3.2.7.1, 3.2.7.3 and 3.2.9).

**Fencing** (`deploy/kubernetes/fencing-admission-policy.yaml`, the admission webhook with its
configuration, and the central fence). `FencingPolicy` evaluates the three CEL validations with CEL's
error values and proves what runs of writes they allow. `CentralFence` models the claims of commands by
compare-and-set on one fence. `FencedCluster` puts the fences of all tenants, the webhook and the policy
around the objects of a cluster, with deletion in two phases and writes that are stored some time after
they were admitted; `FencedRuns` proves what its runs can and cannot do.

**The readings.** The searches and checks are specified through shared definitions, such as the ranges
of a property or the results of a report. `SchemaReading`, `LocalReading`, `ClosureReading`,
`GateReading`, `PathReading` and `EvidenceReading` say finding by finding and answer by answer what
these mean in triples, with each predicate by the text of its IRI (`Vocabulary`). `AdmissionReading`
does the same for admission, in labels and annotations (`KeyTexts`), and `PathNames` and `FileReading` for file names,
lock records, limits and the order of texts; `Relabelling.RenamedGraphByTriples` says what a relabelling is.

`Sorting`, `Ordering`, `Enumeration`, `PosixPath`, `Decimal`, `Findings`, `Rdf` and `Wrappers` hold
shared definitions.

## What the proofs show about the code

- With `requireDeprecatedReplacement` on, a missing terminal is never the only finding: a missing
  replacement or a cycle is reported too. A self-replacement is never the only finding either.
- A fencing token beyond the 64-bit range passes the pattern on create, and then no run of managed
  writes changes the object until it is deleted. A write without the managed label is the other way
  out.
- The policy alone does not keep tokens from falling back: it does not examine a write without the
  managed label. After one a smaller token, or a used token with another command, may follow exactly
  when `FencingPolicy.UnlabelledWriteResetsExactly` and `UnlabelledWriteRebindsExactly` say.
- The webhook closes this hole where it is asked. For the objects of one tenant, tokens then never
  fall back at admission, nor in what is stored until a deletion takes effect, whatever unlabelled and
  delayed writes come in between (`FencedCluster.AdmissionNeverGoesBack`,
  `FencedCluster.StoredNeverGoesBack`).
- The webhook's match conditions leave out the control namespace and updates of objects whose deletion
  is being finalized (fencing-webhook-configuration.template.yaml, lines 24-28). There, and only there, a
  stored token can fall back (`FencedRuns.NeverGoesBackExactly`), and a terminating object can be brought
  to any positive token, even beyond the fence (`FencedRuns.TerminatingTakesAnything`).
- Tenants are not compared with each other: after an unlabelled write, an object of one tenant can be
  replaced by one of another tenant with any token that its own fence has
  (`FencedRuns.TenantsAreNotCompared`).
- The Kubernetes README (line 36) says that deletions with an older token are rejected. That is so
  exactly for namespaces and jobs outside the control namespace. There a deletion is admitted exactly
  when the object itself belongs to the fence's owner and carries the fence's command; for an object that
  the webhook was asked about before, its token decides. The request carries no token, so it does not
  matter who asks.
- The webhook reads the ConfigMap `tenant-fence-` followed by the tenant identifier, while the
  provisioner shortens names above 63 characters. For identifiers of 51 to 63 characters, which both
  accept, the webhook therefore finds no fence and rejects every managed write that it is asked about
  (`FencedRuns.HolderCanWriteExactly`).
- The Kubernetes README (line 34) lists the holder among the six values that must agree for a token
  to be used again. `#claimFence` does not compare it; the model follows the code. Two holders can be
  granted one command.
- The leap year rule of the date check leaves out the sign of the year. Read as days of the proleptic
  Gregorian calendar, where -1 is the year before 1, the dates it misjudges are exactly 29 February of
  the negative years that are leap years with or without their sign: -0004-02-29 is accepted and
  -0001-02-29 is not.
- If its result paths are unambiguous, and well-formed paths are, the evidence of a SHACL report depends
  on neither iteration order nor blank node labels. `PathAnswers.OneAnswerExactly` says when the decoder
  of a path has one answer on graphs of any shape.
- A write that was admitted before the central fence moved can still be stored afterwards, as the same
  README (line 38) says; the model proves that nothing else can.
- In the lock check, the comparison of list lengths and the comparison with the normalized path never
  fail by themselves.

## Model

| member | source | states |
|---|---|---|
| RdfList.DecodeList | molit-dataspace/tools/profile/owl_consistency.py:99-113 | succeeds with exactly the list the graph holds at the head, if it holds one of at most 10,000 elements; reports bad cardinality exactly when the walk meets, within the limit, a blank node without one first and one rest |
| RdfList.ListsAreEncodings | molit-dataspace/tools/profile/owl_consistency.py:99-113 | a graph holds a list exactly when distinct blank nodes write it with their only first and rest triples: decoding inverts encoding both ways |
| RdfList.CyclicHoldsNoList | molit-dataspace/tools/profile/owl_consistency.py:104-105 | a walk that returns to a term it met holds no list at all |
| Equivalence.EquivalentConnected | molit-dataspace/tools/profile/owl_consistency.py:116-130 | the search answers true exactly when the terms are connected by the predicate read both ways, for any order, and terminates with duplicates pending |
| Equivalence.SmallestEquivalence | molit-dataspace/tools/profile/owl_consistency.py:116-130 | connected means related by every equivalence relation that holds of the predicate's pairs |
| Subclass.SubclassOf | molit-dataspace/tools/profile/owl_consistency.py:133-154 | exactly reachability along forward subClassOf and equivalentClass edges into named classes |
| Subclass.SubclassTransitive | molit-dataspace/tools/profile/owl_consistency.py:133-154 | the relation is transitive |
| Subclass.ResourceMatchesClass | molit-dataspace/tools/profile/owl_consistency.py:157-165 | true exactly for non-literals typed by the class, directly, through superclasses, or as a DCAT resource |
| LocalProperties.LocalPropertyFindings | molit-dataspace/tools/profile/owl_consistency.py:195-303 | the findings are those of every fixture triple, none lost and none added |
| LocalProperties.LocalVerdict | molit-dataspace/tools/profile/owl_consistency.py:195-303 | no finding exactly when every local triple uses its property as declared |
| LocalProperties.MoreTriplesFewerFindings | molit-dataspace/tools/profile/owl_consistency.py:195-303 | enlarging the explicit graph never adds a finding |
| LocalReading.ConformsByTriples | molit-dataspace/tools/profile/owl_consistency.py:195-303 | a fixture triple draws no finding exactly if its predicate is not local or an annotation property, or is declared, has an rdfs:domain and an rdfs:range that are IRIs, its subject is an instance of every domain, and its value an instance (or of the datatype) of every range |
| LocalReading.InstancesByTriples | molit-dataspace/tools/profile/owl_consistency.py:133-165 | being an instance, by triples: a type and a chain of subClassOf and equivalentClass triples to the class, or one of the five DCAT types |
| LocalReading.DatatypesByText | molit-dataspace/tools/profile/owl_consistency.py:168-183 | the datatype test by IRI text: language before datatype before xsd:string, and hexBinary digits in pairs |
| LocalReading.UndeclaredByTriples | molit-dataspace/tools/profile/owl_consistency.py:207-221 | when a local predicate is reported as undeclared, and with which dataset and predicate |
| LocalReading.DomainsReported | molit-dataspace/tools/profile/owl_consistency.py:222-242 | when a missing domain and a subject outside a domain are reported, and what each field of the finding holds |
| LocalReading.ObjectsReported | molit-dataspace/tools/profile/owl_consistency.py:243-272 | the same for the values of object properties; a literal is reported alone |
| LocalReading.DatatypesReported | molit-dataspace/tools/profile/owl_consistency.py:273-302 | the same for the values of datatype properties, where the property is not also an object property |
| Disjointness.ListedPairs | molit-dataspace/tools/profile/owl_consistency.py:400-406 | the pairs of every listed group, the earlier member on the left; fails exactly when some list cannot be decoded |
| Disjointness.OneOrientationSuffices | molit-dataspace/tools/profile/owl_consistency.py:400-431 | enumerating i<j loses nothing: silence means that members at different positions are distinct and lie in different equivalence components |
| Replacement.HasReplacementCycle | molit-dataspace/tools/profile/owl_consistency.py:482-493 | true exactly when the term lies on a closed replacement walk of at least one step |
| Replacement.FindTerminal | molit-dataspace/tools/profile/owl_consistency.py:503-514 | true exactly when some chain leads out of the deprecated terms |
| Replacement.ChainsEndOutside | molit-dataspace/tools/profile/owl_consistency.py:450-521 | without cycles and with replacements everywhere, a chain goes on exactly while it stands on a deprecated term, and takes at most as many steps as there are deprecated terms, whatever is chosen |
| Replacement.TerminalMissingHasCause | molit-dataspace/tools/profile/owl_consistency.py:503-521 | a missing terminal comes from a reachable deprecated term on a cycle or without a replacement |
| Replacement.TerminalNeverMissingAlone | molit-dataspace/tools/profile/owl_consistency.py:450-521 | if the replacement check and the cycle check are silent, every deprecated term has a terminal |
| Replacement.SelfReplacementIsCycle | molit-dataspace/tools/profile/owl_consistency.py:461-467 | a self-replacement is always also a cycle |
| SchemaConsistency.SchemaFindings | molit-dataspace/tools/profile/owl_consistency.py:306-522 | reports exactly the findings the graph warrants, finding by finding, or fails exactly on a list that cannot be decoded |
| SchemaConsistency.ReplacementsSilent | molit-dataspace/tools/profile/owl_consistency.py:450-521 | the replacement checks are silent exactly when there is no cycle, no equivalent replacement, and a replacement (or, where none is required, a terminal) for each deprecated term |
| SchemaConsistency.SchemaVerdict | molit-dataspace/tools/profile/owl_consistency.py:306-522 | no schema finding exactly on a consistent schema |
| SchemaReading.ReplacementsSoundByTriples | molit-dataspace/tools/profile/owl_consistency.py:450-521 | with replacements required, the replacement checks are silent exactly if each term marked deprecated has an isReplacedBy triple, no value of one is equivalent to its term, and no sequence of deprecated terms, each replaced by the next, closes |
| SchemaReading.ImportsByTriples | molit-dataspace/tools/profile/owl_consistency.py:313-318 | an import is reported exactly if the schema has an owl:imports triple |
| SchemaReading.ContradictionsByTriples | molit-dataspace/tools/profile/owl_consistency.py:320-334 | a contradiction is reported exactly for a local term typed as both kinds of property |
| SchemaReading.MissingByTriples | molit-dataspace/tools/profile/owl_consistency.py:335-352 | a missing domain or range is reported exactly for a local property without an IRI as value of rdfs:domain or rdfs:range |
| SchemaReading.WrongByTriples | molit-dataspace/tools/profile/owl_consistency.py:353-383 | a domain that names a datatype, a datatype range of an object property and a class range of a datatype property are each reported exactly where the triples say so |
| SchemaReading.LocalEquivalencesByTriples | molit-dataspace/tools/profile/owl_consistency.py:385-398 | a forbidden equivalence is reported exactly for a triple of the three predicates with a local subject or value, with subject, predicate and value in their fields |
| SchemaReading.ClashesByTriples | molit-dataspace/tools/profile/owl_consistency.py:400-431 | two terms declared disjoint, directly or by position in a list, are reported exactly if they are equivalent, the first on the left |
| SchemaReading.MarkersByTriples | molit-dataspace/tools/profile/owl_consistency.py:433-449 | a marker is reported exactly if it is neither a well-typed true nor a well-typed false |
| Vocabulary.TermsInText | molit-dataspace/tools/profile/owl_consistency.py:42-51 | how a term is written in a finding: an IRI in full, one text for all blank nodes, a literal with its language or else its datatype |
| SchemaReading.ReplacementMissingByTriples | molit-dataspace/tools/profile/owl_consistency.py:454-460 | a missing replacement is reported exactly for a deprecated term without an isReplacedBy triple |
| SchemaReading.SelfReplacementByTriples | molit-dataspace/tools/profile/owl_consistency.py:461-467 | a self-replacement is reported exactly for a deprecated term that an isReplacedBy triple maps to itself |
| SchemaReading.EquivalentReplacementByTriples | molit-dataspace/tools/profile/owl_consistency.py:468-480 | an equivalent replacement is reported exactly for a deprecated term connected with its replacement by one of the three equivalences |
| SchemaReading.CycleByTriples | molit-dataspace/tools/profile/owl_consistency.py:482-502 | a cycle is reported exactly for a term to which a sequence of isReplacedBy triples of deprecated terms returns |
| SchemaReading.TerminalMissingByTriples | molit-dataspace/tools/profile/owl_consistency.py:503-521 | a missing terminal is reported exactly for a replaced term that no such sequence leads out of the deprecated terms |
| ClosureConsistency.ClosureFindings | molit-dataspace/tools/profile/owl_consistency.py:525-645 | reports exactly the warranted findings on a closure |
| ClosureConsistency.ClassSilent | molit-dataspace/tools/profile/owl_consistency.py:543-563 | silent exactly when no resource has two disjoint types, disjointness taken without direction |
| ClosureConsistency.PropertySilent | molit-dataspace/tools/profile/owl_consistency.py:565-585 | silent exactly when no subject and value are joined by two disjoint properties |
| ClosureConsistency.AllDifferentSilent | molit-dataspace/tools/profile/owl_consistency.py:597-611 | silent exactly when no two positions of an AllDifferent list are sameAs in either direction |
| ClosureConsistency.DeprecatedUseSilent | molit-dataspace/tools/profile/owl_consistency.py:613-644 | the three use checks together are silent exactly when no fixture triple mentions a deprecated term in any position |
| ClosureConsistency.ClosureVerdict | molit-dataspace/tools/profile/owl_consistency.py:525-645 | no closure finding exactly on a consistent closure |
| ClosureReading.NothingByTriples | molit-dataspace/tools/profile/owl_consistency.py:534-541 | reported exactly for a resource typed owl:Nothing |
| ClosureReading.DisjointClassesByTriples | molit-dataspace/tools/profile/owl_consistency.py:543-563 | reported exactly for a resource typed by two classes declared disjoint, directly or by list position, with resource, left and right in their fields |
| ClosureReading.DisjointPropertiesByTriples | molit-dataspace/tools/profile/owl_consistency.py:565-585 | reported exactly for a subject and a value joined by two properties declared disjoint, each in its field |
| ClosureReading.DifferentByTriples | molit-dataspace/tools/profile/owl_consistency.py:587-596 | reported exactly for a differentFrom triple whose two terms are sameAs in either direction |
| ClosureReading.AllDifferentByTriples | molit-dataspace/tools/profile/owl_consistency.py:597-611 | reported exactly for two positions of a list named by members or distinctMembers whose terms are sameAs in either direction |
| ClosureReading.UsesByTriples | molit-dataspace/tools/profile/owl_consistency.py:613-633 | a deprecated class or property in a fixture is reported exactly for each triple that uses it so |
| ClosureReading.MentionsByTriples | molit-dataspace/tools/profile/owl_consistency.py:634-644 | a deprecated resource is reported exactly for each triple with it as subject, or as value of anything but rdf:type |
| Ordering.DeduplicateAndSort | molit-dataspace/tools/profile/owl_consistency.py:648-650 | the dictionary form computes each element once in key order |
| Ordering.UniqueSortedInsensitive | molit-dataspace/tools/profile/owl_consistency.py:648-650 | two inputs give the same result exactly when they have the same elements |
| Ordering.UniqueSortedAbsorbs | molit-dataspace/tools/profile/owl_consistency.py:705-717 | sorting a part first changes nothing; sorting is idempotent |
| Gate.RunGate | molit-dataspace/tools/profile/owl_consistency.py:653-732 | the report holds every finding once in key order, as a whole and for each dataset, and passes exactly when there is none |
| Gate.PassedByParts | molit-dataspace/tools/profile/owl_consistency.py:707-731 | the gate passes exactly when the schema findings are empty and every dataset passed |
| Gate.GateVerdict | molit-dataspace/tools/profile/owl_consistency.py:770-786 | the tool passes exactly when all lists decode and schema and datasets are consistent; a list error fails closed |
| GateReading.DatasetReportedBy | molit-dataspace/tools/profile/owl_consistency.py:676-705 | what a dataset reports: local findings against schema and fixture together, rule errors one by one, closure findings on its closure with the ontology's deprecated terms |
| GateReading.DatasetByTriples | molit-dataspace/tools/profile/owl_consistency.py:676-714 | a dataset is consistent exactly if every triple of its fixture conforms by triples, the rule engine reports nothing and its closure is consistent |
| ResultPath.NormalizeResultPath | molit-dataspace/tools/profile/independent_shacl.py:650-704 | on any graphs, cyclic or malformed, the decoder terminates with an answer that the graphs allow, decoded from operands of the first graph that has any |
| PathReading.DecodedByText | molit-dataspace/tools/profile/independent_shacl.py:657-704 | which SHACL predicate, by the text of its IRI, makes a blank node which kind of path, which of several wins, and that the operand is the value in the first graph that has one |
| PathReading.LeadingByTriples | molit-dataspace/tools/profile/independent_shacl.py:650-654 | the objects read are those of the first graph that has a triple with the subject and predicate |
| PathTree.PathRoundTrip | molit-dataspace/tools/profile/independent_shacl.py:657-704 | any answer for a well-formed encoding of a path tree is that tree's descriptor and no other tree's |
| PathTree.DescribeInjective | molit-dataspace/tools/profile/independent_shacl.py:657-704 | distinct trees have distinct descriptors |
| PathTree.AnswersAreSpelled | molit-dataspace/tools/profile/independent_shacl.py:657-704 | an answer that describes a tree is backed by triples that spell that tree |
| PathAnswers.OneAnswerExactly | molit-dataspace/tools/profile/independent_shacl.py:650-704 | on any graphs the decoder has one answer exactly when, wherever the first graph with operands has several, they agree; items count only in well-formed lists |
| PathAnswers.SingleIsUnambiguous | molit-dataspace/tools/profile/independent_shacl.py:650-654 | the graphs are read in order: one operand in the leading graph is enough, whatever later graphs add |
| PathEncoding.EncodeThenDecode | molit-dataspace/tools/profile/independent_shacl.py:650-704 | a tree written on distinct blank nodes, each triple in exactly one graph and no other path triples on them, is decoded to its descriptor |
| PathEncoding.DividedThenDecoded | molit-dataspace/tools/profile/independent_shacl.py:745-748 | the same for any division of the triples between report and shapes, whatever else the two say |
| ShapeRequirements.RequirementIds | molit-dataspace/tools/profile/independent_shacl.py:616-647 | exactly the literal identifiers on the shape or on any node that contains it, for any pop order, on cyclic graphs too |
| ShapeRequirements.IdsInherited | molit-dataspace/tools/profile/independent_shacl.py:616-647 | a contained shape carries every identifier of each shape that contains it, directly or through others |
| EvidenceReading.InheritedByTriples | molit-dataspace/tools/profile/independent_shacl.py:616-647 | an identifier is inherited exactly along a chain of triples of the ten containment predicates, to a node with the identifier as literal |
| ResultRecord.BuildRecord | molit-dataspace/tools/profile/independent_shacl.py:738-777 | a canonical record of a result: focus types and requirement identifiers as sorted sets, paths, severities, components and values as sorted lists with one item for each object |
| ResultRecord.RecordIsCanonical | molit-dataspace/tools/profile/independent_shacl.py:738-777 | a result whose paths have one answer each has one record: no iteration order shows in it |
| ResultEvidence.CollectEvidence | molit-dataspace/tools/profile/independent_shacl.py:727-800 | sorted counts of results by the digest of their canonical record and by inherited requirement; the signature counts add up to the number of result nodes |
| EvidenceReading.CountsByTriples | molit-dataspace/tools/profile/independent_shacl.py:727-800 | the number of results is the number of values of sh:result; each identifier is counted once for every such value with a source shape that inherits it, and no other is listed |
| EvidenceReading.DigestsByTriples | molit-dataspace/tools/profile/independent_shacl.py:731-783 | every result has a record of its own, and a digest is counted once for each result whose record has it |
| EvidenceReading.RecordByTriples | molit-dataspace/tools/profile/independent_shacl.py:738-777 | what a record holds, by the result's triples: types of focus nodes and requirement identifiers, and one item for each severity, constraint component, value and path |
| Relabelling.InheritedIdsRenamed | molit-dataspace/tools/profile/independent_shacl.py:616-647 | inherited identifiers are the same under any one-to-one relabelling of blank nodes |
| PathRelabelling.DescribesRenamed | molit-dataspace/tools/profile/independent_shacl.py:650-704 | the possible descriptors of a path, on any graphs, are the same under any one-to-one relabelling of blank nodes |
| EvidenceRelabelling.EvidenceRenamed | molit-dataspace/tools/profile/independent_shacl.py:727-800 | the possible evidence is the same when report, shapes and data are relabelled alike |
| EvidenceRelabelling.EvidenceIsLabelFree | molit-dataspace/tools/profile/independent_shacl.py:727-800 | with unambiguous result paths two runs give the same evidence, in any iteration order and under any relabelling in between |
| EvidenceRelabelling.EncodedPathsAreUnambiguous | molit-dataspace/tools/profile/independent_shacl.py:738-757 | result paths that encode path trees are unambiguous |
| ResultEvidence.MultisetIsCanonical | molit-dataspace/tools/profile/independent_shacl.py:780-783 | two reports have the same list exactly when every signature occurs equally often in both |
| ResultEvidence.RequirementCountBounded | molit-dataspace/tools/profile/independent_shacl.py:730-736 | a listed requirement is counted at least once and at most as often as there are results, and is attached to an ancestor of some result's source shape |
| Framing.DistributionStream | molit-dataspace/tools/profile/independent_shacl.py:73-103 | the stream is the framing of the sorted manifest; it fails exactly on a counted file that is irregular or too large |
| Framing.UnframeInverts | molit-dataspace/tools/profile/independent_shacl.py:97-102 | a reader recovers path and digest of every record, zero bytes in digests included |
| Framing.StreamsAgreeExactly | molit-dataspace/tools/profile/independent_shacl.py:73-103 | two installations have the same stream exactly when the same paths with the same digests count in both |
| Framing.ManifestOfReordered | molit-dataspace/tools/profile/independent_shacl.py:74-98 | the order of the installed file list does not show |
| FileReading.SkippedExactly | molit-dataspace/tools/profile/independent_shacl.py:75-89 | which files the digest leaves out: outside the package, compiled, or added by an installer |
| FileReading.ManifestByPath | molit-dataspace/tools/profile/independent_shacl.py:98 | the manifest is in order of paths, and of digests only where paths are equal |
| FileReading.StringsInOrder | molit-dataspace/tools/profile/independent_shacl.py:98 | texts are compared at their first difference |
| ReleaseTree.ListArtifacts | molit-dataspace/tools/profile/independent_shacl.py:461-493 | the strictly sorted paths of exactly the machine artifacts of any directory tree; fails exactly on a link or special entry |
| ReleaseTree.SplitInvertsJoin | molit-dataspace/tools/profile/independent_shacl.py:476-478 | splitting a joined path gives its names back, so distinct files never share a path |
| PathNames.SplitExactly | molit-dataspace/tools/profile/independent_shacl.py:76-79 | splitting at separators: the parts hold none and joined with it give the text back |
| PathNames.NameIsLast | molit-dataspace/tools/profile/independent_shacl.py:79 | the name of a path is what follows its last separator |
| PathNames.MachineArtifactExactly | molit-dataspace/tools/profile/independent_shacl.py:484-487 | a machine artifact is any file but the lock whose name is a stem, a dot and one of ten extensions in any case |
| PathNames.SuffixExactly | molit-dataspace/tools/profile/independent_shacl.py:486 | the suffix is the last dot of the name with what follows, where neither side of it is empty |
| ArtifactLock.LoadVerified | molit-dataspace/tools/profile/independent_shacl.py:514-566 | succeeds exactly when records, tree, digests and approved inputs agree, and yields the payload of every locked path and nothing else |
| ArtifactLock.LoadRelease | molit-dataspace/tools/profile/independent_shacl.py:496-566 | the whole load: it succeeds exactly when the lock file fits its limit, parses, has the approved header, and agrees with the tree, and returns the payloads with the digest of that lock file |
| ArtifactLock.PortableByParts | molit-dataspace/tools/profile/independent_shacl.py:355-374 | the comparison with the normalized path is implied by the segment checks |
| FileReading.PortableExactly | molit-dataspace/tools/profile/independent_shacl.py:355-374 | which paths are accepted, segment by segment: no empty, current or parent segment, no trailing space or dot, no device name before the first dot |
| FileReading.RecordExactly | molit-dataspace/tools/profile/independent_shacl.py:514-537 | which lock records are accepted, field by field; the source stands in only where there is no origin |
| FileReading.LockExactly | molit-dataspace/tools/profile/independent_shacl.py:497-511 | which lock files are accepted, with limit, versions and prohibition by value |
| BoundedRead.ReadBounded | molit-dataspace/tools/profile/independent_shacl.py:425-436 | for any short reads, the whole content if it fits the limit and an error otherwise |
| XsdDate.FullMatchIsTheMatch | molit-dataspace/tools/profile/independent_shacl.py:335-338 | the date pattern matches in at most one way and that match is found |
| XsdDate.LastFourDecideLeap | molit-dataspace/tools/profile/independent_shacl.py:924-927 | the last four digits decide leap years of any length |
| XsdDate.ValidIffDenotesDate | molit-dataspace/tools/profile/independent_shacl.py:912-936 | a string is accepted exactly when it is the notation of a date in a non-zero year, by the Gregorian rule on the year number without its sign, with an offset of at most 840 minutes |
| XsdDate.DaysOfMonths | molit-dataspace/tools/profile/independent_shacl.py:928-930 | every month has its number of days, February one more in leap years |
| XsdDate.GregorianExactly | molit-dataspace/tools/profile/independent_shacl.py:919-928 | acceptance and being a day of the proleptic Gregorian calendar are the same exactly off 29 February of the negative years that are leap years with or without their sign |
| XsdDate.DisputedDaysMisjudged | molit-dataspace/tools/profile/independent_shacl.py:919-928 | on those days they are opposite: accepted exactly when the unsigned year is a leap year, in the calendar exactly when it is not |
| XsdDate.RoundTrip | molit-dataspace/tools/profile/independent_shacl.py:912-936 | parsing gives a date exactly for the string that the date is printed as |
| FencingPolicy.FirstWriteMeaning | molit-dataspace/deploy/kubernetes/fencing-admission-policy.yaml:41-67 | a write with no stored token to compare is admitted exactly with a positive token |
| FencingPolicy.CelIntExactly | molit-dataspace/deploy/kubernetes/fencing-admission-policy.yaml:48-61 | the CEL conversion of a text to an integer succeeds exactly on decimal digits, with or without a sign, in the 64-bit range, and gives their value |
| AdmissionReading.NumeralsByValue | molit-dataspace/deploy/kubernetes/fencing-admission-policy.yaml:41-47 | the pattern of a token matches exactly the decimal notation of the positive numbers |
| FencingPolicy.UpdateMeaning | molit-dataspace/deploy/kubernetes/fencing-admission-policy.yaml:48-67 | an update over a stored token is admitted exactly when both are 64-bit numbers and the new one is larger, or equal with the same complete command |
| FencingPolicy.RunsAreFenced | molit-dataspace/deploy/kubernetes/fencing-admission-policy.yaml:35-67 | in every run of managed writes, at any distance, tokens never decrease and equal tokens carry the same command |
| FencingPolicy.DelayedWriteRejected | molit-dataspace/deploy/kubernetes/fencing-admission-policy.yaml:35-67 | a delayed write with a smaller token, or another command under a stored token, is rejected for the rest of the lifetime |
| FencingPolicy.UpdatableExactly | molit-dataspace/deploy/kubernetes/fencing-admission-policy.yaml:48-67 | some managed update is still possible exactly below the 64-bit maximum, or at it with a complete command |
| FencingPolicy.FrozenExactly | molit-dataspace/deploy/kubernetes/fencing-admission-policy.yaml:35-67 | no run of managed writes without a deletion changes the stored object, exactly when its token is above the 64-bit maximum, or at it with an incomplete command |
| FencingPolicy.OversizedTokenFreezes | molit-dataspace/deploy/kubernetes/fencing-admission-policy.yaml:42-67 | every token beyond 64 bits is admitted on create, and every run of managed writes after it leaves the object as created until it is deleted |
| FencingPolicy.DeletionForgets | molit-dataspace/deploy/kubernetes/fencing-admission-policy.yaml:48-60 | a deletion ends all that came before: the run goes on as if it had just begun, and every managed object with a positive token can be created |
| FencingPolicy.RepeatAdmittedExactly | molit-dataspace/deploy/kubernetes/fencing-admission-policy.yaml:56-67 | repeating a stored command is admitted exactly when its token fits 64 bits and the command is complete |
| FencingPolicy.UnlabelledWriteResetsExactly | molit-dataspace/deploy/kubernetes/fencing-admission-policy.yaml:35-67 | after a write without the managed label, in any lifetime, a managed write with a token below any given one can follow exactly when the unlabelled object has no token, or a 64-bit number that leaves room for a larger one below, or for an equal one that repeats its complete command |
| FencingPolicy.UnlabelledWriteRebindsExactly | molit-dataspace/deploy/kubernetes/fencing-admission-policy.yaml:35-67 | after a write without the managed label, a token can be used for another command than a given one exactly when the unlabelled object has no token, or a smaller 64-bit number with the token in range, or just this token with another complete command |
| FencingPolicy.UnlabelledWriteResets | molit-dataspace/deploy/kubernetes/fencing-admission-policy.yaml:35-40 | for any two tokens, a run in which the smaller follows the larger after a write without labels |
| CentralFence.FenceRunMonotone | molit-dataspace/src/caas/kubernetes-provisioner.mjs:1157-1211 | in any run of claims and receipts every later fence has the same owner, and the same command or a larger token |
| CentralFence.ClaimWritesExactly | molit-dataspace/src/caas/kubernetes-provisioner.mjs:1163-1205 | what a claim leaves in the fence: its tenant, instance, command and holder exactly if the fence it read is unchanged, of the same owner and has a smaller token, and otherwise what was there |
| CentralFence.GrantsAgree | molit-dataspace/src/caas/kubernetes-provisioner.mjs:1157-1211 | in every reachable state, grants with equal tokens are for the same command |
| CentralFence.RepeatGrantedExactly | molit-dataspace/src/caas/kubernetes-provisioner.mjs:1164-1175 | a claim with the token of the fence it read is granted exactly to the owning tenant and instance for that fence's command, whoever the holder is |
| CentralFence.HolderRuleMetExactly | molit-dataspace/src/caas/kubernetes-provisioner.mjs:1164-1175 | the documented rule of six values is met exactly when the command differs, or the holder is the recorded one just if the owner is |
| CentralFence.TwoHoldersAreGranted | molit-dataspace/src/caas/kubernetes-provisioner.mjs:1157-1211 | for any command and any two holders, a run in which both are granted it while the fence names the first |
| CentralFence.FenceWritesAreAdmitted | molit-dataspace/src/caas/kubernetes-provisioner.mjs:1176-1205 | every fence that a claim or receipt writes is admitted by the policy over the fence before |
| FencedCluster.StepKeepsInv | molit-dataspace/src/caas/kubernetes-fencing-webhook.mjs:46-80 | every fence step, admission, storage, deletion and removal keeps each examined managed object bound to a command that its tenant's fence had, and fences only extend |
| AdmissionReading.AllowedExactly | molit-dataspace/src/caas/kubernetes-fencing-webhook.mjs:38-80 | the webhook lets a managed object through exactly if it read a usable fence and the object's tenant and instance labels, token and four command annotations equal the fence's fields, each under its own key |
| AdmissionReading.OwnFenceIsAllowed | molit-dataspace/src/caas/kubernetes-fencing-webhook.mjs:38-80 | the object that carries its fence's own command is let through |
| AdmissionReading.UnmanagedIsAllowed | molit-dataspace/src/caas/kubernetes-fencing-webhook.mjs:53-55 | an object without the managed label is let through |
| AdmissionReading.AdmissionExactly | molit-dataspace/deploy/kubernetes/fencing-webhook-configuration.template.yaml:24-50 | a managed write is admitted exactly if the policy admits it and, except in the control namespace or over a terminating object, the object carries the fence kept under its tenant's name |
| FencedCluster.ReachableIsFenced | molit-dataspace/src/caas/kubernetes-fencing-webhook.mjs:46-80 | in every reachable state, examined managed objects of one tenant with equal tokens carry the same command, and none is beyond its tenant's fence |
| FencedCluster.AdmissionNeverGoesBack | molit-dataspace/src/caas/kubernetes-fencing-webhook.mjs:46-80 | where the webhook is asked, a managed write admitted later in a run supersedes every examined object of its tenant that was present before |
| FencedCluster.StoredNeverGoesBack | molit-dataspace/deploy/kubernetes/README.md:34-38 | outside the control namespace and until a deletion takes effect, a managed object stored later supersedes one of its tenant stored before: a larger token or the same command |
| FencedRuns.StaleNeverReturns | molit-dataspace/deploy/kubernetes/README.md:34-38 | once the fence is past a token, a managed object with it that is neither stored nor admitted is never stored again, except where the webhook is not asked |
| FencedRuns.DeletionAdmittedExactly | molit-dataspace/src/caas/kubernetes-fencing-webhook.mjs:34-80 | where the webhook is asked, a deletion of a managed object is admitted exactly when the object belongs to the owner of its fence and carries the fence's whole command |
| AdmissionReading.DeletionExactly | molit-dataspace/src/caas/kubernetes-fencing-webhook.mjs:34-80 | the same field by field: a deletion of a stored managed object is admitted exactly if the webhook is not asked about it or the object carries its tenant's current fence |
| FencedRuns.ExaminedDeletionByToken | molit-dataspace/src/caas/kubernetes-fencing-webhook.mjs:34-80 | and if the webhook was asked about the object before, exactly when it carries the fence's token |
| FencedCluster.NamesAgreeExactly | molit-dataspace/src/caas/kubernetes-provisioner.mjs:71-76 | webhook and provisioner mean the same ConfigMap exactly for tenant identifiers of at most 50 characters |
| FencedCluster.WrittenNameExactly | molit-dataspace/src/caas/kubernetes-provisioner.mjs:71-76 | the name that the provisioner writes for a longer tenant identifier: at most 50 characters without hyphens at the end, a hyphen and at most 12 characters of the hash of the whole name |
| FencedRuns.HolderCanWriteExactly | molit-dataspace/src/caas/kubernetes-fencing-webhook.mjs:103-111 | where the webhook is asked, the holder of a tenant's current command can make a write that the policy admits exactly if the tenant identifier has at most 50 characters |
| FencedRuns.StoredIsNamed | molit-dataspace/src/caas/kubernetes-fencing-webhook.mjs:103-111 | in every reachable state, a managed object outside the control namespace that is not terminating names such a tenant |
| FencedRuns.StaleDeletionRejectedExactly | molit-dataspace/deploy/kubernetes/fencing-webhook-configuration.template.yaml:24-50 | a deletion of an object with an older token is rejected exactly for namespaces and jobs outside the control namespace |
| FencedRuns.StaleDeletionStaysRejected | molit-dataspace/deploy/kubernetes/README.md:36 | and stays rejected in every run for as long as that object is stored |
| FencedRuns.StoredNextExactly | molit-dataspace/deploy/kubernetes/README.md:36-38 | an object can be stored next exactly when its write was admitted before and the replaced object is unchanged |
| FencedRuns.TerminatingNextExactly | molit-dataspace/src/caas/kubernetes-provisioner.mjs:1310 | an object can be marked for deletion next exactly when a deletion of just its stored revision was admitted before, which is what the precondition on the resource version asks for |
| FencedRuns.AdmittedWriteOutlivesFence | molit-dataspace/deploy/kubernetes/README.md:38 | a run in which a write is stored after the fence moved past its token exists exactly if the webhook reads the tenant's fence |
| FencedRuns.NeverGoesBackExactly | molit-dataspace/deploy/kubernetes/fencing-webhook-configuration.template.yaml:24-28 | in every reachable state, the stored token of an object can never fall back within its tenant exactly if the object is neither in the control namespace nor terminating |
| FencedRuns.TerminatingTakesAnything | molit-dataspace/deploy/kubernetes/fencing-webhook-configuration.template.yaml:27-28 | for an object that the webhook admits under a fence, a run that stores it, deletes it and, without removing it, stores any managed object with a positive token in its place exists exactly if the webhook reads that fence |
| FencedRuns.TenantsAreNotCompared | molit-dataspace/src/caas/kubernetes-fencing-webhook.mjs:56-79 | for two tenants, a run without a deletion in which an object of one is replaced by one of the other, whatever their tokens, exists exactly in the control namespace and where the webhook reads both fences |

## Left out

- SchemaConsistency.SchemaFindings: findings are compared as sets, since every list is sorted before it is reported; message texts follow from the constructor.
- SchemaConsistency.DeclarationChecks: the one-predicate checks (imports, kinds, domains, ranges, local equivalences, markers) are comprehensions over sets.
- Gate.RunGate: file loading, triple counts, tool versions and the closure computation; closure and rule errors enter with each dataset, and the JSON key of a finding is any injective function into strings.
- Disjointness.ListedPairs: which of several undecodable lists is reported first depends on iteration order and is not fixed.
- Rdf.Term: rdflib's own parsing; whether a literal is ill-typed is a field of the literal.
- ResultEvidence.CollectEvidence: JSON texts and SHA-256 are functions, the texts of descriptors injective; the report digest over canonical N-Triples is not modelled; `str.casefold` of a language tag is ASCII lower case.
- Framing.DistributionStream: SHA-256 and UTF-8 are functions; of UTF-8 only injectivity and the absence of zero bytes outside NUL are used.
- PosixPath.Lower: lower and upper case cover ASCII letters, which is all that the compared extensions and device names hold.
- ReleaseTree.Walk: entries are visited in listing order instead of name order; the result is sorted afterwards, and only the choice among several errors differs.
- ArtifactLock.LoadRelease: the strict JSON reader is a function from bytes to a document or failure; all defects of the lock document share one error, and so do all defects of one record.
- BoundedRead.ReadBounded: link, identity and size checks around the loop belong to the file system.
- FencingPolicy.Admits: the selection of resource kinds and operations; objects are reduced to labels and annotations.
- CentralFence.FenceNext: the retry limit and the control over who else may write the fence's ConfigMap; a claim is one read and one compare-and-set, repeated at will.
- FencedCluster.WebhookAllows: the branches for malformed requests; a failing read of the fence is the case without a fence.
- FencedCluster.WrittenName: the hash in a shortened name is any function; two tenants with one name are kept apart by the ownership check, which is modelled.
- FencedCluster.Next: rollback and the provisioner's own sequence of writes are ordinary writes in any order; the API server's compare on storage is part of the environment, and finalizers may finish at any time.
- Portal defect detection, release pins, audit hooks, request plumbing and the JSON contracts: fixed tables or input and output around the modelled parts.
