/** The per-face decision logic of `processFrame`: for every detected face,
    skip it when alignment failed, reuse the cached entry on a hash hit, and
    on a miss either cache the new face (training mode) or classify it and
    collect its label (recognition mode). The frame is a left fold of Step. */
module Pipeline {
  import opened Model

  /** What processFrame reads of the session and the outside world. */
  datatype Env = Env(training: bool, svm: Option<Classifier>, people: seq<string>, vision: Vision)

  /** The loop's state after some prefix of the detected faces: the cache, the
      local `identity`, the `identities` list, the NEW_IMAGE events sent, the
      crops given to the embedder, and whether an exception ended the loop. */
  datatype FrameState = FrameState(
    images: map<Hash, Face>,
    identity: int,
    identities: seq<int>,
    events: seq<Event>,
    embedded: seq<Image>,
    failed: bool)

  /** `self.svm.predict(rep)[0] if self.svm else -1`. */
  function Predicted(svm: Option<Classifier>, predict: (Classifier, Rep) -> int, rep: Rep): int {
    if svm.Some? then predict(svm.value, rep) else UNKNOWN
  }

  /** The annotation looks the label up with `self.people[identity]` unless it
      is UNKNOWN; Python's indexing accepts -|people| .. |people|-1 and raises
      IndexError otherwise. */
  predicate Nameable(identity: int, people: seq<string>) {
    identity == UNKNOWN || -|people| <= identity < |people|
  }

  /** One iteration of the loop over bounding boxes. */
  function Step(env: Env, st: FrameState, face: Option<Image>): FrameState {
    if st.failed || face.None? then st
    else
      var h := env.vision.phash(face.value);
      if h in st.images then
        var id := st.images[h].identity;
        st.(identity := id, failed := !env.training && !Nameable(id, env.people))
      else
        var rep := env.vision.embed(face.value);
        if env.training then
          st.(images := st.images[h := Face(rep, st.identity)],
              events := st.events + [NewImage(h, st.identity, rep)],
              embedded := st.embedded + [face.value])
        else
          var id := Predicted(env.svm, env.vision.predict, rep);
          st.(identity := id,
              identities := if id in st.identities then st.identities else st.identities + [id],
              embedded := st.embedded + [face.value],
              failed := !Nameable(id, env.people))
  }

  /** The loop's state after processing `faces` in order, starting from cache
      `images` and the caller's `identity`. */
  function Run(env: Env, images: map<Hash, Face>, identity: int, faces: seq<Option<Image>>): FrameState
    decreases |faces|
  {
    if faces == [] then FrameState(images, identity, [], [], [], false)
    else Step(env, Run(env, images, identity, faces[..|faces| - 1]), faces[|faces| - 1])
  }

  /** What the frame sends after its loop: in recognition mode the
      IDENTITIES list followed by the annotated frame; nothing more when an
      exception ended the loop. */
  function Emitted(env: Env, st: FrameState): seq<Event> {
    if st.failed || env.training then st.events
    else st.events + [Identities(st.identities), Annotated]
  }

  /** The crops that alignment produced, in detection order. */
  function Present(faces: seq<Option<Image>>): seq<Option<Image>> {
    if faces == [] then []
    else Present(faces[..|faces| - 1]) + (if faces[|faces| - 1].Some? then [faces[|faces| - 1]] else [])
  }

  /** The hashes of the aligned crops. */
  function FaceHashes(phash: Image -> Hash, faces: seq<Option<Image>>): set<Hash> {
    set i | 0 <= i < |faces| && faces[i].Some? :: phash(faces[i].value)
  }

  lemma FaceHashesSnoc(phash: Image -> Hash, faces: seq<Option<Image>>, f: Option<Image>)
    ensures FaceHashes(phash, faces + [f]) == FaceHashes(phash, faces) + (if f.Some? then {phash(f.value)} else {})
  {
    var all := faces + [f];
    forall h | h in FaceHashes(phash, all)
      ensures h in FaceHashes(phash, faces) + (if f.Some? then {phash(f.value)} else {})
    {
      var i :| 0 <= i < |all| && all[i].Some? && phash(all[i].value) == h;
      if i < |faces| { assert faces[i] == all[i]; }
    }
    forall h | h in FaceHashes(phash, faces) ensures h in FaceHashes(phash, all) {
      var i :| 0 <= i < |faces| && faces[i].Some? && phash(faces[i].value) == h;
      assert all[i] == faces[i];
    }
    if f.Some? {
      assert all[|faces|] == f;
    }
  }

  /** Reference definition of the crops a training frame embeds: the aligned
      crops whose hash is neither cached nor that of an earlier crop of the
      same frame, in detection order. */
  function NewCrops(phash: Image -> Hash, images: map<Hash, Face>, faces: seq<Option<Image>>): seq<Image> {
    if faces == [] then []
    else
      var init, f := faces[..|faces| - 1], faces[|faces| - 1];
      NewCrops(phash, images, init)
        + (if f.Some? && phash(f.value) !in images && phash(f.value) !in FaceHashes(phash, init)
           then [f.value] else [])
  }

  /** Reference definition of the crops a recognition frame embeds: the
      aligned crops whose hash is not cached, in detection order. */
  function MissedCrops(phash: Image -> Hash, images: map<Hash, Face>, faces: seq<Option<Image>>): seq<Image> {
    if faces == [] then []
    else
      var init, f := faces[..|faces| - 1], faces[|faces| - 1];
      MissedCrops(phash, images, init) + (if f.Some? && phash(f.value) !in images then [f.value] else [])
  }

  /** The position of the first aligned crop of `faces` with hash `h`. */
  function FirstSeen(phash: Image -> Hash, faces: seq<Option<Image>>, h: Hash): (j: nat)
    requires h in FaceHashes(phash, faces)
    ensures j < |faces| && faces[j].Some? && phash(faces[j].value) == h
    ensures h !in FaceHashes(phash, faces[..j])
    decreases |faces|
  {
    var init, f := faces[..|faces| - 1], faces[|faces| - 1];
    FaceHashesSnoc(phash, init, f);
    assert faces == init + [f];
    if h in FaceHashes(phash, init) then
      var j := FirstSeen(phash, init, h);
      assert faces[..j] == init[..j];
      j
    else
      |faces| - 1
  }

  /** Reference definition of the label a training frame holds after `faces`
      (line 238 overwrites the local `identity` on every cache hit): the
      label of the entry the last cache hit found, or the supplied label when
      no crop hit. An entry the frame itself added carries the label held
      just before the crop that added it. */
  function HeldIdentity(phash: Image -> Hash, images: map<Hash, Face>, identity: int, faces: seq<Option<Image>>): int
    decreases |faces|
  {
    if faces == [] then identity
    else
      var init, f := faces[..|faces| - 1], faces[|faces| - 1];
      if f.None? then HeldIdentity(phash, images, identity, init)
      else
        var h := phash(f.value);
        if h in images then images[h].identity
        else if h in FaceHashes(phash, init) then HeldIdentity(phash, images, identity, init[..FirstSeen(phash, init, h)])
        else HeldIdentity(phash, images, identity, init)
  }

  /** Reference definition of the recognition labels: the classifier's label
      of every aligned crop whose hash is not cached, in detection order. */
  function MissLabels(env: Env, images: map<Hash, Face>, faces: seq<Option<Image>>): seq<int> {
    if faces == [] then []
    else
      var f := faces[|faces| - 1];
      MissLabels(env, images, faces[..|faces| - 1])
        + (if f.Some? && env.vision.phash(f.value) !in images
           then [Predicted(env.svm, env.vision.predict, env.vision.embed(f.value))] else [])
  }

  /** The list with later repetitions dropped. */
  function Dedup(s: seq<int>): seq<int> {
    if s == [] then []
    else
      var d := Dedup(s[..|s| - 1]);
      if s[|s| - 1] in d then d else d + [s[|s| - 1]]
  }

  predicate NoDuplicates(s: seq<int>) {
    forall i, j :: 0 <= i < j < |s| ==> s[i] != s[j]
  }

  /** The position of the first occurrence of `x` in `s`. */
  function FirstIndex(s: seq<int>, x: int): (i: nat)
    requires x in s
    ensures i < |s| && s[i] == x && x !in s[..i]
  {
    if s[0] == x then 0 else 1 + FirstIndex(s[1..], x)
  }

  // ---------------------------------------------------------------------
  // Dedup: no duplicates, same elements, first-seen order

  lemma {:induction false} DedupElements(s: seq<int>)
    ensures NoDuplicates(Dedup(s))
    ensures forall x :: x in Dedup(s) <==> x in s
  {
    if s != [] {
      var init := s[..|s| - 1];
      DedupElements(init);
      assert s == init + [s[|s| - 1]];
    }
  }

  lemma {:induction false} FirstIndexInPrefix(p: seq<int>, y: int, x: int)
    requires x in p
    ensures FirstIndex(p + [y], x) == FirstIndex(p, x)
  {
    if p[0] != x {
      assert (p + [y])[1..] == p[1..] + [y];
      FirstIndexInPrefix(p[1..], y, x);
    }
  }

  lemma FirstIndexAtEnd(p: seq<int>, y: int)
    requires y !in p
    ensures FirstIndex(p + [y], y) == |p|
  {
  }

  /** Dedup keeps the labels in the order they were first seen. */
  lemma {:induction false} DedupFirstSeenOrder(s: seq<int>)
    ensures forall x :: x in Dedup(s) ==> x in s
    ensures forall i, j :: 0 <= i < j < |Dedup(s)| ==> FirstIndex(s, Dedup(s)[i]) < FirstIndex(s, Dedup(s)[j])
  {
    DedupElements(s);
    if s != [] {
      var init := s[..|s| - 1];
      var y := s[|s| - 1];
      var d := Dedup(init);
      DedupFirstSeenOrder(init);
      DedupElements(init);
      assert s == init + [y];
      forall x | x in d ensures FirstIndex(s, x) == FirstIndex(init, x) {
        FirstIndexInPrefix(init, y, x);
      }
      if y !in d {
        FirstIndexAtEnd(init, y);
        forall i | 0 <= i < |d| ensures FirstIndex(s, Dedup(s)[i]) < FirstIndex(s, y) {
          assert Dedup(s)[i] == d[i];
        }
      }
    }
  }

  // ---------------------------------------------------------------------
  // Properties of the frame fold

  lemma RunUnfold(env: Env, images: map<Hash, Face>, identity: int, faces: seq<Option<Image>>, f: Option<Image>)
    ensures Run(env, images, identity, faces + [f]) == Step(env, Run(env, images, identity, faces), f)
  {
    assert (faces + [f])[..|faces|] == faces;
  }

  /** Once an exception has ended the loop, the remaining faces change nothing. */
  lemma {:induction false} FailureIsFinal(env: Env, images: map<Hash, Face>, identity: int, faces: seq<Option<Image>>, k: nat)
    requires k <= |faces| && Run(env, images, identity, faces[..k]).failed
    ensures Run(env, images, identity, faces) == Run(env, images, identity, faces[..k])
  {
    if k < |faces| {
      assert faces[..|faces| - 1][..k] == faces[..k];
      FailureIsFinal(env, images, identity, faces[..|faces| - 1], k);
    } else {
      assert faces[..k] == faces;
    }
  }

  /** Faces whose alignment failed are skipped: the frame behaves as if only
      the aligned crops had been detected. */
  lemma {:induction false} UnalignedSkipped(env: Env, images: map<Hash, Face>, identity: int, faces: seq<Option<Image>>)
    ensures Run(env, images, identity, faces) == Run(env, images, identity, Present(faces))
  {
    if faces != [] {
      var init := faces[..|faces| - 1];
      var f := faces[|faces| - 1];
      UnalignedSkipped(env, images, identity, init);
      if f.Some? {
        RunUnfold(env, images, identity, Present(init), f);
      } else {
        assert Present(faces) == Present(init);
      }
    }
  }

  /** No cached entry is ever overwritten or removed by a frame. */
  lemma {:induction false} CachedEntriesKept(env: Env, images: map<Hash, Face>, identity: int, faces: seq<Option<Image>>)
    ensures forall h :: h in images ==>
              (h in Run(env, images, identity, faces).images && Run(env, images, identity, faces).images[h] == images[h])
  {
    if faces != [] {
      CachedEntriesKept(env, images, identity, faces[..|faces| - 1]);
    }
  }

  /** Recognition mode never changes the cache and sends no NEW_IMAGE. */
  lemma {:induction false} RecognitionKeepsCache(env: Env, images: map<Hash, Face>, identity: int, faces: seq<Option<Image>>)
    requires !env.training
    ensures Run(env, images, identity, faces).images == images
    ensures Run(env, images, identity, faces).events == []
  {
    if faces != [] {
      RecognitionKeepsCache(env, images, identity, faces[..|faces| - 1]);
    }
  }

  /** Training mode raises nothing and collects no identities. */
  lemma {:induction false} TrainingNeverFails(env: Env, images: map<Hash, Face>, identity: int, faces: seq<Option<Image>>)
    requires env.training
    ensures !Run(env, images, identity, faces).failed
    ensures Run(env, images, identity, faces).identities == []
  {
    if faces != [] {
      TrainingNeverFails(env, images, identity, faces[..|faces| - 1]);
    }
  }

  /** In training mode the cache ends up holding the old keys plus the hash of
      every aligned crop, and nothing else. */
  lemma {:induction false} TrainingCachesEveryFace(env: Env, images: map<Hash, Face>, identity: int, faces: seq<Option<Image>>)
    requires env.training
    ensures Run(env, images, identity, faces).images.Keys == images.Keys + FaceHashes(env.vision.phash, faces)
  {
    if faces != [] {
      var init := faces[..|faces| - 1];
      var f := faces[|faces| - 1];
      TrainingCachesEveryFace(env, images, identity, init);
      TrainingNeverFails(env, images, identity, init);
      FaceHashesSnoc(env.vision.phash, init, f);
      assert faces == init + [f];
    }
  }

  /** In training mode every embedding computed is cached under a new key: a
      cache hit is never embedded, a miss adds exactly one entry. */
  lemma {:induction false} OneEntryPerEmbedding(env: Env, images: map<Hash, Face>, identity: int, faces: seq<Option<Image>>)
    requires env.training
    ensures |Run(env, images, identity, faces).images| == |images| + |Run(env, images, identity, faces).embedded|
  {
    if faces != [] {
      OneEntryPerEmbedding(env, images, identity, faces[..|faces| - 1]);
      TrainingNeverFails(env, images, identity, faces[..|faces| - 1]);
    }
  }

  /** Every NEW_IMAGE event reports an entry exactly as the frame left it in
      the cache, and one event is sent per embedded crop. */
  lemma {:induction false} NewImagesMatchCache(env: Env, images: map<Hash, Face>, identity: int, faces: seq<Option<Image>>)
    requires env.training
    ensures var r := Run(env, images, identity, faces);
      && |r.events| == |r.embedded|
      && forall i :: 0 <= i < |r.events| ==>
           && r.events[i].NewImage? && r.events[i].hash in r.images && r.events[i].hash !in images
           && r.images[r.events[i].hash] == Face(r.events[i].representation, r.events[i].identity)
           && r.events[i].hash == env.vision.phash(r.embedded[i])
           && r.events[i].representation == env.vision.embed(r.embedded[i])
  {
    if faces != [] {
      var init := faces[..|faces| - 1];
      NewImagesMatchCache(env, images, identity, init);
      TrainingNeverFails(env, images, identity, init);
      var st := Run(env, images, identity, init);
      var f := faces[|faces| - 1];
      if f.Some? && env.vision.phash(f.value) !in st.images {
        var h := env.vision.phash(f.value);
        var r := Run(env, images, identity, faces);
        CachedEntriesKept(env, images, identity, init);
        assert r.images == st.images[h := Face(env.vision.embed(f.value), st.identity)];
        assert r.events == st.events + [NewImage(h, st.identity, env.vision.embed(f.value))];
        assert r.embedded == st.embedded + [f.value];
        forall i | 0 <= i < |r.events|
          ensures r.events[i].NewImage? && r.events[i].hash in r.images && r.events[i].hash !in images
          ensures r.images[r.events[i].hash] == Face(r.events[i].representation, r.events[i].identity)
          ensures r.events[i].hash == env.vision.phash(r.embedded[i])
          ensures r.events[i].representation == env.vision.embed(r.embedded[i])
        {
          if i < |st.events| {
            assert r.events[i] == st.events[i];
            assert r.embedded[i] == st.embedded[i];
            assert st.events[i].hash in st.images;
          }
        }
      }
    }
  }

  /** A training frame none of whose crops was cached before stores every new
      face with the identity the client supplied. */
  lemma {:induction false} NewFacesGetSuppliedIdentity(env: Env, images: map<Hash, Face>, identity: int, faces: seq<Option<Image>>)
    requires env.training
    requires forall i :: 0 <= i < |faces| && faces[i].Some? ==> env.vision.phash(faces[i].value) !in images
    ensures Run(env, images, identity, faces).identity == identity
    ensures forall h :: h in Run(env, images, identity, faces).images && h !in images ==>
              Run(env, images, identity, faces).images[h].identity == identity
  {
    if faces != [] {
      var init := faces[..|faces| - 1];
      forall i | 0 <= i < |init| && init[i].Some? ensures env.vision.phash(init[i].value) !in images {
        assert init[i] == faces[i];
      }
      NewFacesGetSuppliedIdentity(env, images, identity, init);
      TrainingNeverFails(env, images, identity, init);
    }
  }

  /** The crops given to the embedder are exactly the cache misses, in
      detection order: in training mode a crop whose hash an earlier crop of
      the frame added is a hit; in recognition mode the cache never grows. */
  lemma {:induction false} EmbeddedAreMisses(env: Env, images: map<Hash, Face>, identity: int, faces: seq<Option<Image>>)
    ensures env.training ==>
      Run(env, images, identity, faces).embedded == NewCrops(env.vision.phash, images, faces)
    ensures !env.training && !Run(env, images, identity, faces).failed ==>
      Run(env, images, identity, faces).embedded == MissedCrops(env.vision.phash, images, faces)
  {
    if faces != [] {
      var init := faces[..|faces| - 1];
      EmbeddedAreMisses(env, images, identity, init);
      if env.training {
        TrainingCachesEveryFace(env, images, identity, init);
        TrainingNeverFails(env, images, identity, init);
      } else {
        RecognitionKeepsCache(env, images, identity, init);
      }
    }
  }

  /** The labels a training frame stores: the label it holds after the frame
      is HeldIdentity, and each entry it added carries the label held just
      before the first crop with that hash. */
  lemma {:induction false} TrainingLabels(env: Env, images: map<Hash, Face>, identity: int, faces: seq<Option<Image>>)
    requires env.training
    ensures var r := Run(env, images, identity, faces);
      && r.identity == HeldIdentity(env.vision.phash, images, identity, faces)
      && forall h :: h in r.images && h !in images ==>
           && h in FaceHashes(env.vision.phash, faces)
           && r.images[h].identity
              == HeldIdentity(env.vision.phash, images, identity, faces[..FirstSeen(env.vision.phash, faces, h)])
  {
    if faces != [] {
      var phash := env.vision.phash;
      var init, f := faces[..|faces| - 1], faces[|faces| - 1];
      TrainingLabels(env, images, identity, init);
      TrainingNeverFails(env, images, identity, init);
      TrainingCachesEveryFace(env, images, identity, init);
      CachedEntriesKept(env, images, identity, init);
      FaceHashesSnoc(phash, init, f);
      assert faces == init + [f];
      var st := Run(env, images, identity, init);
      var r := Run(env, images, identity, faces);
      forall h | h in r.images && h !in images && h in st.images
        ensures h in FaceHashes(phash, faces)
        ensures r.images[h].identity == HeldIdentity(phash, images, identity, faces[..FirstSeen(phash, faces, h)])
      {
        var j := FirstSeen(phash, init, h);
        assert FirstSeen(phash, faces, h) == j;
        assert faces[..j] == init[..j];
      }
      if f.Some? && phash(f.value) !in st.images {
        var h := phash(f.value);
        assert FirstSeen(phash, faces, h) == |init|;
      }
    }
  }

  /** Line 238 at work: after a cache hit, a new face of the same training
      frame is stored under the label of the face that hit, not the one the
      client supplied. */
  lemma HitRelabelsLaterFaces(env: Env, images: map<Hash, Face>, identity: int, a: Image, b: Image)
    requires env.training
    requires env.vision.phash(a) in images && env.vision.phash(b) !in images
    ensures Run(env, images, identity, [Some(a), Some(b)]).images
         == images[env.vision.phash(b) := Face(env.vision.embed(b), images[env.vision.phash(a)].identity)]
  {
    var start := Run(env, images, identity, []);
    RunUnfold(env, images, identity, [], Some(a));
    assert [] + [Some(a)] == [Some(a)];
    var first := Step(env, start, Some(a));
    assert first.images == images && first.identity == images[env.vision.phash(a)].identity;
    RunUnfold(env, images, identity, [Some(a)], Some(b));
    assert [Some(a)] + [Some(b)] == [Some(a), Some(b)];
  }

  /** When every crop is cached already, the frame embeds nothing and leaves
      the cache and the NEW_IMAGE events untouched. */
  lemma {:induction false} AllCachedIsPure(env: Env, images: map<Hash, Face>, identity: int, faces: seq<Option<Image>>)
    requires forall i :: 0 <= i < |faces| && faces[i].Some? ==> env.vision.phash(faces[i].value) in images
    ensures Run(env, images, identity, faces).images == images
    ensures Run(env, images, identity, faces).embedded == []
    ensures Run(env, images, identity, faces).events == []
  {
    if faces != [] {
      var init := faces[..|faces| - 1];
      forall i | 0 <= i < |init| && init[i].Some? ensures env.vision.phash(init[i].value) in images {
        assert init[i] == faces[i];
      }
      AllCachedIsPure(env, images, identity, init);
    }
  }

  /** Idempotent caching: a training frame seen a second time is all cache
      hits, so it embeds nothing and adds no entry. */
  lemma SecondPassIsAllHits(env: Env, images: map<Hash, Face>, identity: int, identity2: int, faces: seq<Option<Image>>)
    requires env.training
    ensures var once := Run(env, images, identity, faces).images;
      && Run(env, images, identity, faces).images == Run(env, once, identity2, faces).images
      && Run(env, once, identity2, faces).embedded == []
  {
    var once := Run(env, images, identity, faces).images;
    TrainingCachesEveryFace(env, images, identity, faces);
    forall i | 0 <= i < |faces| && faces[i].Some? ensures env.vision.phash(faces[i].value) in once {
      assert env.vision.phash(faces[i].value) in FaceHashes(env.vision.phash, faces);
    }
    AllCachedIsPure(env, once, identity2, faces);
  }

  /** In recognition mode, a frame that completes collects exactly the labels
      of its cache misses, without repetition, in first-seen order; cache hits
      add nothing. */
  lemma {:induction false} RecognizedIdentities(env: Env, images: map<Hash, Face>, identity: int, faces: seq<Option<Image>>)
    requires !env.training
    requires !Run(env, images, identity, faces).failed
    ensures Run(env, images, identity, faces).identities == Dedup(MissLabels(env, images, faces))
  {
    if faces != [] {
      var init := faces[..|faces| - 1];
      var f := faces[|faces| - 1];
      RecognitionKeepsCache(env, images, identity, init);
      assert !Run(env, images, identity, init).failed;
      RecognizedIdentities(env, images, identity, init);
      var labels := MissLabels(env, images, init);
      if f.Some? && env.vision.phash(f.value) !in images {
        var x := Predicted(env.svm, env.vision.predict, env.vision.embed(f.value));
        assert MissLabels(env, images, faces) == labels + [x];
        assert (labels + [x])[..|labels|] == labels;
      } else {
        assert MissLabels(env, images, faces) == labels;
      }
    }
  }

  /** Without a classifier every cache miss is labelled UNKNOWN. */
  lemma {:induction false} UnknownWithoutClassifier(env: Env, images: map<Hash, Face>, faces: seq<Option<Image>>)
    requires env.svm.None?
    ensures forall l :: l in MissLabels(env, images, faces) ==> l == UNKNOWN
  {
    if faces != [] {
      UnknownWithoutClassifier(env, images, faces[..|faces| - 1]);
    }
  }

  // ---------------------------------------------------------------------
  // The frame as written: line 240 names `alignedFile`, which is not
  // defined anywhere, so every cache miss raises NameError before the
  // embedder runs.

  function StepAsWritten(env: Env, st: FrameState, face: Option<Image>): FrameState {
    if !st.failed && face.Some? && env.vision.phash(face.value) !in st.images then st.(failed := true)
    else Step(env, st, face)
  }

  function RunAsWritten(env: Env, images: map<Hash, Face>, identity: int, faces: seq<Option<Image>>): FrameState
    decreases |faces|
  {
    if faces == [] then FrameState(images, identity, [], [], [], false)
    else StepAsWritten(env, RunAsWritten(env, images, identity, faces[..|faces| - 1]), faces[|faces| - 1])
  }

  /** As written, no frame ever adds a face to the cache or embeds one. */
  lemma {:induction false} AsWrittenNeverCaches(env: Env, images: map<Hash, Face>, identity: int, faces: seq<Option<Image>>)
    ensures RunAsWritten(env, images, identity, faces).images == images
    ensures RunAsWritten(env, images, identity, faces).embedded == []
  {
    if faces != [] {
      AsWrittenNeverCaches(env, images, identity, faces[..|faces| - 1]);
    }
  }

  /** The witness: one new face in a training frame. As written the frame
      fails and the cache is unchanged; the intended frame caches the face. */
  lemma AsWrittenLosesNewFace(env: Env, images: map<Hash, Face>, identity: int, a: Image)
    requires env.training && env.vision.phash(a) !in images
    ensures RunAsWritten(env, images, identity, [Some(a)]).failed
    ensures RunAsWritten(env, images, identity, [Some(a)]).images == images
    ensures Run(env, images, identity, [Some(a)]).images
         == images[env.vision.phash(a) := Face(env.vision.embed(a), identity)]
  {
    assert [Some(a)][..0] == [];
  }
}
