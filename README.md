# OpenFace web demo server: session model

This project models the per-connection session of the OpenFace real-time
face-recognition web demo (`examples/web/server.py`, class
`OfrServerProtocol`). Each connection owns:

- `images`, a cache from the perceptual hash of an aligned face crop to a
  `Face(rep, identity)`;
- `training`, the training/recognition mode flag;
- `people`, the append-only list of person names;
- `svm`, the optional classifier;
- `unknownImgs`, a fixed pool of unlabelled embeddings.

Client messages edit this state. `ALL_STATE` bulk-loads it. `TRAINING`
flips the mode. `ADD_PERSON`, `UPDATE_IDENTITY` and `REMOVE_IMAGE` edit
the registry and the cache. `FRAME` runs the per-face loop. Several of
them retrain the classifier on class-balanced data.

Layout:

- `model.dfy` has the value types. `Face`, messages and emitted events
  are datatypes. The vision collaborators are the function-valued record
  `Vision`.
- `ascii.dfy` models Python 2's `encode('ascii', 'ignore')`, which the
  server applies to incoming hashes and names.
- `balance.dfy` has the integer arithmetic of `getData`. It counts labels,
  floor-divides, and takes a prefix of the pool.
- `cache.dfy` has the overwrite semantics of the bulk loader.
- `pipeline.dfy` has the loop of `processFrame` as a left fold (`Run` of
  `Step`) and the lemmas about it.
- `server.dfy` has the class `OfrServerProtocol`. Its fields are updated
  by methods with `modifies` clauses. The loops of `getData`, `loadState`
  and `processFrame` are `while`/`for` loops, proved against the functions
  above. `OnMessage` dispatches to one method per message type, and each
  loop of `getData` and `loadState` is a method of its own.

Modelling choices:

- The classifier is represented by the samples it was fitted on
  (`Svc(Samples(X, y))`). A ghost counter `retrains` counts the fits, so
  the contracts can say exactly when a retrain happens.
- `getData` walks a Python 2 dictionary, whose order is unspecified. The
  model picks keys in an unspecified order with `:|`, and a ghost `keys`
  result records that order. `BalancedData` specifies the result for
  that order. `BalancedDataIgnoresOrder` proves that any two orders give
  the same rows, up to their order.
- `ClassifierCurrent` is the session invariant: in recognition mode the
  classifier fits the current cache. Every message preserves it.
- Detection, alignment, the perceptual hash, the embedding network and
  `SVC.predict` are opaque function parameters (`Vision`). `Vision.faces`
  stands for base64/JPEG decoding, the channel copy, bounding-box
  detection and alignment together. For each box, in detection order, it
  yields the aligned crop, or None when `alignImg` fails.
- In recognition mode the annotation looks the name up with
  `self.people[identity]` (line 267). That raises IndexError unless the
  label is -1 or a valid Python index, which may be negative. The model
  keeps this failure: the loop stops, and no IDENTITIES, annotated-frame
  or PROCESSED message is sent.
- A cache hit overwrites the local `identity` (line 238). Later misses in
  the same training frame are stored with that label. This is modelled as
  written: `TrainingLabels` gives every new entry the identity of the
  last cache hit before it, or the supplied identity when there was none.
- The face loop follows the corrected line 240 described under
  "## Findings": a cache miss is embedded. `RunAsWritten` keeps the line
  as written, and the lemmas about it show what that changes.
- The server is started with `unknown.npy`, which is never empty. The
  constructor requires a nonempty pool (`Pool`), so every training set
  holds at least two labels, and `SVC.fit` at line 204 never meets the
  single-class input on which it raises.

Behaviour kept as written:

- FRAME is not always acknowledged. A data URL without the
  `data:image/jpeg;base64,` prefix fails the assertion at line 208. A
  payload that does not decode, or an image whose array is not
  three-dimensional with at least three channels, or whose height and
  width do not broadcast to 300x400, raises at lines 209-219. In all of these nothing
  below line 221 runs and no PROCESSED is sent; `Vision.faces` returns
  None for the last two. The IndexError above also ends the message.
- `ALL_STATE` does not clear the cache. It overwrites listed hashes and
  keeps the rest. It appends the listed people after the existing ones.
- `ADD_PERSON` never retrains, even in recognition mode.
- In recognition mode a cache hit is not added to the reported
  identities. Only cache misses are.

## Model

| member | source | states |
|---|---|---|
| `Ascii.EncodeIgnore` | examples/web/server.py:101 | the encoded hash or name contains only ASCII characters, is no longer than its input, and keeps only characters of the input |
| `Ascii.EncodeIgnoreKeepsAscii` | examples/web/server.py:128 | an ASCII string, such as the hex string of a perceptual hash, is left unchanged by the encoding |
| `Ascii.EncodeIgnoreLengthPreserved` | examples/web/server.py:98 | encoding loses no character exactly when the input is already ASCII |
| `Ascii.EncodeIgnoreIdempotent` | examples/web/server.py:101 | a property of the encoding applied at lines 98, 101, 109, 128 and 133: encoding an already encoded string changes nothing |
| `Ascii.EncodeIgnoreConcat` | examples/web/server.py:101 | the encoding works character by character: encoding a concatenation is the concatenation of the encodings |
| `Ascii.EncodeIgnoreCounts` | examples/web/server.py:101 | every ASCII character occurs in the encoding as often as in the input, and no other character occurs at all |
| `Ascii.EncodeAll` | examples/web/server.py:132-133 | the loaded people list has one encoded name per input name, at the same position |
| `Balance.Count` | examples/web/server.py:145 | `y.count(v)` is at most the length of the list |
| `Balance.CountIsMultiplicity` | examples/web/server.py:145 | `y.count(v)` equals the number of occurrences of `v` in `y`, taken as a multiset |
| `Balance.NumIdentitiesIsDistinctKnown` | examples/web/server.py:147 | `len(set(y+[-1])) - 1` is the number of distinct labels other than -1 |
| `Balance.NoIdentitiesIffAllUnknownLabels` | examples/web/server.py:147-149 | there are no identities exactly when every label is -1 |
| `Balance.NumUnknown` | examples/web/server.py:145 | `numUnknown`: the number of -1 labels |
| `Balance.NumIdentified` | examples/web/server.py:146 | `numIdentified`: the number of labels other than -1 |
| `Balance.NumIdentities` | examples/web/server.py:147 | `numIdentities`: `len(set(y+[-1])) - 1` |
| `Balance.Augmented` | examples/web/server.py:145-160 | the data `getData` returns for rows X, y: None without an identity, otherwise the rows with the first AugmentCount pool samples appended and labelled -1 |
| `Balance.AugmentCount` | examples/web/server.py:150-153 | the number of appended unknown samples never exceeds the pool, because the slice stops at its end |
| `Balance.RepsOf` | examples/web/server.py:141-142 | the embedding column has one entry per visited key: the rep of that key's face, in visiting order |
| `Balance.IdsOf` | examples/web/server.py:141-143 | the label column has one entry per visited key: the identity of that key's face, in visiting order |
| `Balance.BalancedData` | examples/web/server.py:138-160 | what `getData` returns when it visits the cache in the order `keys`: `Augmented` of the cached reps and identities |
| `Balance.NoDataIffAllUnknown` | examples/web/server.py:141-149 | for an enumeration of the whole cache, `getData` gives None exactly when no cached face has an identity other than -1 |
| `Balance.BalancedDataRows` | examples/web/server.py:139-160 | the training data starts with one row per cached face in visiting order, followed by a prefix of the pool, at most all of it, labelled -1; X and y have equal length |
| `Balance.EnumerationsPermute` | examples/web/server.py:141 | two complete visits of the dictionary list the same keys, each once, so they are permutations of each other |
| `Balance.ApplyPermutes` | examples/web/server.py:141-143 | reading a column from two permutations of the keys gives two permutations of one another |
| `Balance.BalancedDataIgnoresOrder` | examples/web/server.py:138-160 | two visiting orders of the cache both give data or both give None, and then the same (rep, label) rows equally often |
| `Balance.AugmentCountIgnoresOrder` | examples/web/server.py:141-156 | the number of appended unknown samples depends only on the multiset of labels, not on the dictionary's iteration order |
| `Balance.AugmentedHasTwoClasses` | examples/web/server.py:147-160 | with a nonempty pool, balanced data always holds at least two distinct labels |
| `Balance.BalancedUnknownCount` | examples/web/server.py:150-156 | after padding, the -1 class holds max(numUnknown, min(numIdentified div numIdentities, numUnknown + pool size)) samples; the identified count and the number of identities are unchanged |
| `Cache.Overlay` | examples/web/server.py:127-130 | the cache after storing every listed image under its encoded hash, in list order |
| `Cache.OverlayKeys` | examples/web/server.py:127-130 | after the bulk load the cache keys are the old keys plus the encoded hash of every listed image |
| `Cache.OverlayKeepsOthers` | examples/web/server.py:127-130 | an old entry whose key is not listed is unchanged by the bulk load |
| `Cache.OverlayLastWins` | examples/web/server.py:127-130 | every listed image is stored with its rep and identity; when one key is listed several times, the last image wins |
| `Cache.RemoveShrinksByOne` | examples/web/server.py:110-111 | deleting a present hash removes exactly one entry and leaves every other entry unchanged |
| `Pipeline.Predicted` | examples/web/server.py:258 | the label of a cache miss in recognition mode: the classifier's first prediction for the rep, or -1 when there is no classifier |
| `Pipeline.Nameable` | examples/web/server.py:267 | the annotation's lookup succeeds exactly for the label -1 or a valid Python index into `people`, negative indices included |
| `Pipeline.Step` | examples/web/server.py:231-267 | one iteration of the loop over bounding boxes: an unaligned crop or a raised loop is skipped; a hit overwrites `identity` (238) and, in recognition mode, fails when the label cannot be looked up (267); a miss is embedded and, in training mode, cached and announced with NEW_IMAGE, otherwise predicted, collected once and looked up |
| `Pipeline.Run` | examples/web/server.py:228-267 | the loop state after the aligned crops in detection order, starting from the cache and the caller's identity with no identities, events or embeddings |
| `Pipeline.Emitted` | examples/web/server.py:272-293 | the frame's output: the NEW_IMAGE events of the loop, followed in recognition mode by IDENTITIES and ANNOTATED unless the loop raised |
| `Pipeline.Dedup` | examples/web/server.py:259-260 | the identities list built by appending each label not yet in it |
| `Pipeline.StepAsWritten` | examples/web/server.py:236-240 | one iteration with line 240 as written: a cache miss raises NameError, and every other crop behaves as in `Step` |
| `Pipeline.RunAsWritten` | examples/web/server.py:230-240 | the as-written loop: the fold of `StepAsWritten` over the aligned crops |
| `Pipeline.FirstIndex` | examples/web/server.py:259 | the first-occurrence position of a label holds that label and nothing before it does |
| `Pipeline.DedupElements` | examples/web/server.py:259-260 | the `if identity not in identities: append` list has no duplicates and exactly the elements of its input |
| `Pipeline.DedupFirstSeenOrder` | examples/web/server.py:259-260 | the collected identities are in the order in which each was first seen |
| `Pipeline.FailureIsFinal` | examples/web/server.py:267 | once the label lookup has raised, the remaining faces of the frame are not processed |
| `Pipeline.UnalignedSkipped` | examples/web/server.py:232-234 | a face whose alignment returned None is skipped: the frame behaves as if only the aligned faces had been detected |
| `Pipeline.CachedEntriesKept` | examples/web/server.py:237-245 | no frame overwrites or removes a cached entry |
| `Pipeline.RecognitionKeepsCache` | examples/web/server.py:244-260 | in recognition mode the frame leaves the cache unchanged and sends no NEW_IMAGE |
| `Pipeline.TrainingNeverFails` | examples/web/server.py:244-262 | in training mode the loop raises nothing and collects no identities |
| `Pipeline.TrainingCachesEveryFace` | examples/web/server.py:236-245 | after a training frame the cache keys are the old keys plus the phash of every aligned face |
| `Pipeline.OneEntryPerEmbedding` | examples/web/server.py:237-245 | in training mode each embedding adds exactly one cache entry, and a cache hit embeds nothing |
| `Pipeline.NewImagesMatchCache` | examples/web/server.py:245-256 | one NEW_IMAGE per embedded face, in order; each names a key that is new in the cache, carries exactly the stored rep and identity, and its hash and representation are the phash and embedding of that face |
| `Pipeline.EmbeddedAreMisses` | examples/web/server.py:236-260 | the embedded crops are exactly the cache misses, in order: in training mode the crops whose hash is neither cached nor seen earlier in the frame, in a completed recognition frame every crop whose hash is not cached |
| `Pipeline.TrainingLabels` | examples/web/server.py:236-245 | in a training frame the final `identity` and the identity of each new entry are those of the last cache hit before that face's first occurrence, or the supplied identity when there was none, and each new key is the hash of a face of the frame |
| `Pipeline.HitRelabelsLaterFaces` | examples/web/server.py:237-245 | a cached face followed by a new face stores the new face with the cached face's identity, not the supplied one |
| `Pipeline.NewFacesGetSuppliedIdentity` | examples/web/server.py:237-245 | in a training frame with no earlier-cached face, every new entry gets the client-supplied identity |
| `Pipeline.AllCachedIsPure` | examples/web/server.py:237-238 | a frame whose faces are all cached embeds nothing, changes no entry and sends no NEW_IMAGE |
| `Pipeline.SecondPassIsAllHits` | examples/web/server.py:236-245 | a training frame processed a second time is all cache hits: no embedding, no new entry |
| `Pipeline.RecognizedIdentities` | examples/web/server.py:257-260 | a completed recognition frame reports exactly the deduplicated labels of its cache misses, in first-seen order; the labels are `svm.predict(rep)[0]`, or -1 without a classifier, and cache hits add nothing |
| `Pipeline.UnknownWithoutClassifier` | examples/web/server.py:258 | without a classifier every cache miss is labelled -1 |
| `Pipeline.AsWrittenNeverCaches` | examples/web/server.py:240 | as written, a frame never caches or embeds a face, because every miss raises NameError |
| `Pipeline.AsWrittenLosesNewFace` | examples/web/server.py:240-245 | for a training frame with one new face, the as-written loop fails and leaves the cache unchanged; the intended loop caches the face with the supplied identity |
| `Server.AppendUnknown` | examples/web/server.py:153-156 | every embedding of the slice is appended to X, with a -1 appended to y for each |
| `Server.AugmentRows` | examples/web/server.py:145-160 | the counted, possibly padded rows are `Augmented` of the cache rows: None without an identity, otherwise the rows plus AugmentCount pool samples labelled -1 |
| `Server.FrameFaces` | examples/web/server.py:207-233 | the aligned crops of a FRAME: None when the prefix assertion at 208 fails or decoding and the channel copy raise at 209-219, otherwise what the detector and aligner yield for the payload |
| `Server.Fit` | examples/web/server.py:199-204 | the classifier `trainSVM` stores: None without data, otherwise an SVC fitted on the data |
| `Server.FitsNoneIffAllUnknown` | examples/web/server.py:196-201 | a classifier fitted on the cache is absent exactly when no cached face has an identity other than -1 |
| `Server.FitIgnoresOrder` | examples/web/server.py:196-204 | any two classifiers fitted on the same cache and pool are both absent or trained on the same rows up to order |
| `Server.FitHasTwoClasses` | examples/web/server.py:196-204 | with a nonempty pool, a classifier fitted on the cache has seen at least two labels |
| `Server.OfrServerProtocol.constructor` | examples/web/server.py:68-73 | a new session has an empty cache, training mode, no people, no classifier and the given nonempty pool |
| `Server.OfrServerProtocol.OnConnect` | examples/web/server.py:75-77 | connecting puts the session in training mode |
| `Server.OfrServerProtocol.CachedRows` | examples/web/server.py:139-143 | one row per cached face: rep in X and identity in y, each in the same position, over an enumeration of all keys |
| `Server.OfrServerProtocol.GetData` | examples/web/server.py:138-160 | the result is the balanced data of the cache for an enumeration of all its keys, the order the loop took |
| `Server.OfrServerProtocol.TrainSvm` | examples/web/server.py:196-204 | one retrain; afterwards the classifier is None when `getData` gives None and otherwise is fitted on its data, for some visiting order, and has seen at least two labels; only `svm` changes |
| `Server.OfrServerProtocol.LoadImages` | examples/web/server.py:127-130 | the cache becomes the old cache with every listed image stored under its encoded hash, in list order |
| `Server.OfrServerProtocol.LoadPeople` | examples/web/server.py:132-133 | the encoded names are appended to the people list, in order |
| `Server.OfrServerProtocol.LoadState` | examples/web/server.py:124-136 | sets the mode, overlays the listed images on the cache, appends the encoded people, and retrains exactly when not training |
| `Server.OfrServerProtocol.OnFrame` | examples/web/server.py:90-92 | a data URL without the JPEG prefix, or one whose payload does not decode to an image that copies into the 300x400 frame (three-dimensional, at least three channels, height and width broadcasting to 300x400), changes nothing and sends nothing; otherwise the cache and the events are those of the face loop, plus PROCESSED when nothing raised; the classifier invariant is kept |
| `Server.OfrServerProtocol.OnTraining` | examples/web/server.py:93-96 | sets the mode and retrains exactly when leaving training mode; the classifier invariant is kept |
| `Server.OfrServerProtocol.OnUpdateIdentity` | examples/web/server.py:100-107 | a cached hash gets the new identity with its rep kept, then a retrain in recognition mode; an unknown hash changes nothing |
| `Server.OfrServerProtocol.OnRemoveImage` | examples/web/server.py:108-115 | a cached hash is removed, the cache shrinks by exactly one, then a retrain in recognition mode; an unknown hash changes nothing |
| `Server.OfrServerProtocol.OnReqTsne` | examples/web/server.py:116-117 | TSNE_DATA is sent exactly when some cached face has an identity other than -1 |
| `Server.OfrServerProtocol.ProcessFrame` | examples/web/server.py:228-277 | the cache, events, embeddings and success flag are those of the fold `Run` over the aligned faces, followed by IDENTITIES and ANNOTATED in recognition mode when no lookup raised |
| `Server.OfrServerProtocol.OnMessage` | examples/web/server.py:82-119 | per message type: the exact new cache, mode, people and classifier, when a retrain happens, and the events sent; unknown types change nothing; the recognition-mode classifier invariant is preserved |

## Left out

- WebSocket transport, JSON parsing and `print` logging are left out. Messages arrive already parsed as `Message`; a malformed message has no model.
- The data URL payload is not decoded. Base64/JPEG decoding, the `fliplr` and channel copy, detection and alignment are the opaque `Vision.faces`, which is None where any of the first three raises.
- The perceptual hash, the Torch embedding network and SVM fitting and prediction are opaque. `Vision.phash`, `Vision.embed` and `Vision.predict` stand for them, and a fitted SVM is the data it was fitted on. No floating point is modelled.
- NEW_IMAGE carries no preview. The half-size preview from `cv2.resize` is image work in a foreign library.
- The annotated frame and the t-SNE plot carry no content. Only the fact that ANNOTATED and TSNE_DATA are sent is modelled. PCA, t-SNE, `cv2.rectangle`, `putText` and matplotlib are float and rendering code.
- `sendTSNE` can also fail inside PCA, t-SNE or its own name lookup. Those failures are not modelled: the REQ_TSNE branch emits TSNE_DATA exactly when `getData` returns data.
- `Face.__repr__` is left out. It is only used for logging.
- Faces are map values, not shared Python objects. The source never aliases one `Face` under two keys, and the cache is only updated through the dictionary, so no behaviour is lost.
- Reading `unknown.npy` is replaced by a constructor parameter.
- Server.OfrServerProtocol.constructor: requires a nonempty pool. With an empty `unknown.npy` a training set of one identity and no UNKNOWN sample would make `SVC.fit` raise at line 204; that case is not modelled.

## Findings

| source | as written | input that shows it | evidently intended | confidence | as-written member | corrected member |
|---|---|---|---|---|---|---|
| examples/web/server.py:240 | `cv2.imwrite('/tmp/facenet-web-demo.png', alignedFile)` names `alignedFile`, which is defined nowhere, so every cache miss raises NameError before the embedder runs; no face is ever cached or classified | a training-mode FRAME with one aligned face whose hash is not cached | write the aligned crop `alignedFace` and embed it, so the miss is cached (training) or classified (recognition) | high (not executed) | `Pipeline.AsWrittenNeverCaches` | `Pipeline.TrainingCachesEveryFace` |
