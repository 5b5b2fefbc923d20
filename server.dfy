/** The per-connection session of the face-recognition web server
    (`OfrServerProtocol`): the face cache, the training flag, the person
    registry and the classifier, and the message handler that edits them. */
module Server {
  import opened Model
  import opened Ascii
  import opened Balance
  import opened Cache
  import opened Pipeline

  /** The embeddings loaded from `unknown.npy`. The file ships with the
      server and is never empty, which is what keeps a second class in
      every training set. */
  type Pool = s: seq<Rep> | |s| > 0 witness [[]]

  /** The prefix every FRAME's data URL must carry. */
  const JPEG_HEAD: string := "data:image/jpeg;base64,"

  /** The loop `for rep in extra: X.append(rep); y.append(-1)`: every
      embedding of `extra` becomes a row labelled UNKNOWN. */
  method AppendUnknown(X0: seq<Rep>, y0: seq<int>, extra: seq<Rep>) returns (X: seq<Rep>, y: seq<int>)
    ensures X == X0 + extra
    ensures y == y0 + Padding(|extra|)
  {
    X, y := X0, y0;
    for i := 0 to |extra|
      invariant X == X0 + extra[..i]
      invariant y == y0 + Padding(i)
    {
      assert extra[..i + 1] == extra[..i] + [extra[i]];
      PaddingGrows(i);
      X := X + [extra[i]];
      y := y + [UNKNOWN];
    }
    assert extra[..|extra|] == extra;
  }

  /** The aligned crops of a FRAME's data URL, or None when processFrame
      raises before its face loop: the prefix assertion fails, or the
      payload does not decode to an image whose array copies into the 300x400
      frame: three-dimensional, at least three channels, and a height and
      width that broadcast to 300x400. */
  function FrameFaces(vision: Vision, dataURL: string): Option<seq<Option<Image>>> {
    if JPEG_HEAD <= dataURL then vision.faces(dataURL[|JPEG_HEAD|..]) else None
  }

  /** The rest of `getData` after its first loop: count the labels, give up
      when none is an identity, otherwise pad with UNKNOWN samples from the
      front of the pool. */
  method AugmentRows(X: seq<Rep>, y: seq<int>, pool: seq<Rep>) returns (d: Option<Samples>)
    ensures d == Augmented(X, y, pool)
  {
    var numUnknown := Count(y, UNKNOWN);
    var numIdentified := |y| - numUnknown;
    var numIdentities := NumIdentities(y);
    if numIdentities == 0 {
      return None;
    }
    var numUnknownAdd := numIdentified / numIdentities - numUnknown;
    ghost var k := AugmentCount(y, |pool|);
    AugmentCountOf(y, |pool|, numUnknown, numIdentified, numIdentities);
    var X', y' := X, y;
    if numUnknownAdd > 0 {
      // the slice `unknownImgs[:numUnknownAdd]` stops at the end of the pool
      var extra := pool[..if numUnknownAdd < |pool| then numUnknownAdd else |pool|];
      assert extra == pool[..k];
      X', y' := AppendUnknown(X, y, extra);
    } else {
      assert k == 0 && X + pool[..k] == X && y + Padding(k) == y;
    }
    d := Some(Samples(X', y'));
  }

  /** `SVC(kernel='rbf').fit(X, y)` on the training data, when there is any. */
  function Fit(d: Option<Samples>): Option<Classifier> {
    match d
    case None => None
    case Some(s) => Some(Svc(s))
  }

  /** `svm` is what a retrain on cache `images` with pool `pool` produces,
      for some order of visiting the cache. */
  ghost predicate FitsSomeOrder(svm: Option<Classifier>, images: map<Hash, Face>, pool: seq<Rep>) {
    exists keys :: Enumerates(images, keys) && svm == Fit(BalancedData(images, pool, keys))
  }

  /** A classifier fitted on the cache is absent exactly when no cached
      face has an identity. */
  lemma FitsNoneIffAllUnknown(svm: Option<Classifier>, images: map<Hash, Face>, pool: seq<Rep>)
    requires FitsSomeOrder(svm, images, pool)
    ensures svm.None? <==> AllUnknown(images)
  {
    var keys :| Enumerates(images, keys) && svm == Fit(BalancedData(images, pool, keys));
    NoDataIffAllUnknown(images, pool, keys);
  }

  /** Whatever order the dictionary is visited in, the classifier is fitted
      on the same rows, up to their order. */
  lemma FitIgnoresOrder(s1: Option<Classifier>, s2: Option<Classifier>, images: map<Hash, Face>, pool: seq<Rep>)
    requires FitsSomeOrder(s1, images, pool) && FitsSomeOrder(s2, images, pool)
    ensures s1.None? <==> s2.None?
    ensures s1.Some? ==> multiset(Rows(s1.value.trained)) == multiset(Rows(s2.value.trained))
  {
    var k1 :| Enumerates(images, k1) && s1 == Fit(BalancedData(images, pool, k1));
    var k2 :| Enumerates(images, k2) && s2 == Fit(BalancedData(images, pool, k2));
    BalancedDataIgnoresOrder(images, pool, k1, k2);
  }

  /** With a nonempty pool a fitted classifier has seen at least two
      labels, so `SVC.fit` is never handed a single class. */
  lemma FitHasTwoClasses(svm: Option<Classifier>, images: map<Hash, Face>, pool: Pool)
    requires FitsSomeOrder(svm, images, pool)
    ensures svm.Some? ==> |Labels(svm.value.trained.y)| >= 2
  {
    var keys :| Enumerates(images, keys) && svm == Fit(BalancedData(images, pool, keys));
    if svm.Some? {
      AugmentedHasTwoClasses(RepsOf(images, keys), IdsOf(images, keys), pool);
    }
  }

  class OfrServerProtocol {
    /** Cached faces by perceptual hash. */
    var images: map<Hash, Face>
    /** True in training mode, false in recognition mode. */
    var training: bool
    /** Display names; an identity `i` names `people[i]`. */
    var people: seq<string>
    var svm: Option<Classifier>
    /** The pool of unlabelled embeddings used to pad the UNKNOWN class. */
    const unknownImgs: Pool
    /** How many times the classifier has been (re)trained. */
    ghost var retrains: nat

    /** The classifier is what a retrain on the current cache produces. */
    ghost predicate SvmFitsCache()
      reads this
    {
      FitsSomeOrder(svm, images, unknownImgs)
    }

    /** In recognition mode the classifier is never stale. */
    ghost predicate ClassifierCurrent()
      reads this
    {
      !training ==> SvmFitsCache()
    }

    /** `unknownImgs` is read from `unknown.npy` in the source; here it is given. */
    constructor (pool: Pool)
      ensures images == map[] && training && people == [] && svm == None
      ensures unknownImgs == pool && retrains == 0
      ensures ClassifierCurrent()
    {
      images := map[];
      training := true;
      people := [];
      svm := None;
      unknownImgs := pool;
      retrains := 0;
    }

    /** A (re)connecting client starts in training mode. */
    method OnConnect()
      modifies this`training
      ensures training
    {
      training := true;
    }

    /** The first loop of `getData`: one row per cached face, in the
        dictionary's iteration order, which the source leaves unspecified;
        `keys` records the order taken. */
    method CachedRows() returns (X: seq<Rep>, y: seq<int>, ghost keys: seq<Hash>)
      ensures Enumerates(images, keys)
      ensures X == RepsOf(images, keys) && y == IdsOf(images, keys)
    {
      X, y, keys := [], [], [];
      var rest := images.Keys;
      while rest != {}
        invariant rest <= images.Keys
        invariant |keys| + |rest| == |images|
        invariant forall i :: 0 <= i < |keys| ==> keys[i] in images && keys[i] !in rest
        invariant forall i, j :: 0 <= i < j < |keys| ==> keys[i] != keys[j]
        invariant forall h :: h in images ==> h in rest || h in keys
        invariant X == RepsOf(images, keys) && y == IdsOf(images, keys)
        decreases |rest|
      {
        var h :| h in rest;
        X := X + [images[h].rep];
        y := y + [images[h].identity];
        assert (keys + [h])[..|keys|] == keys;
        keys := keys + [h];
        rest := rest - {h};
      }
    }

    /** The training data: every cached face as a row, padded with UNKNOWN
        samples from the front of the pool; None when no face has an
        identity. */
    method GetData() returns (d: Option<Samples>, ghost keys: seq<Hash>)
      ensures Enumerates(images, keys)
      ensures d == BalancedData(images, unknownImgs, keys)
    {
      var X, y;
      X, y, keys := CachedRows();
      d := AugmentRows(X, y, unknownImgs);
    }

    /** Refit the classifier from scratch on the current training data, or
        drop it when there is none. */
    method TrainSvm()
      modifies this`svm, this`retrains
      ensures SvmFitsCache()
      ensures svm.Some? ==> |Labels(svm.value.trained.y)| >= 2
      ensures retrains == old(retrains) + 1
    {
      var d;
      ghost var keys;
      d, keys := GetData();
      if d.None? {
        svm := None;
      } else {
        svm := Some(Svc(d.value));
      }
      assert Enumerates(images, keys) && svm == Fit(BalancedData(images, unknownImgs, keys));
      FitHasTwoClasses(svm, images, unknownImgs);
      retrains := retrains + 1;
    }

    /** The first loop of `loadState`: store every listed image over the
        cache, in list order. */
    method LoadImages(jsImages: seq<JsImage>)
      modifies this`images
      ensures images == Overlay(old(images), jsImages)
    {
      for i := 0 to |jsImages|
        invariant images == Overlay(old(images), jsImages[..i])
      {
        assert jsImages[..i + 1][..i] == jsImages[..i];
        var h := EncodeIgnore(jsImages[i].hash);
        images := images[h := Face(jsImages[i].representation, jsImages[i].identity)];
      }
      assert jsImages[..|jsImages|] == jsImages;
    }

    /** The second loop of `loadState`: append the listed people. */
    method LoadPeople(jsPeople: seq<string>)
      modifies this`people
      ensures people == old(people) + EncodeAll(jsPeople)
    {
      for i := 0 to |jsPeople|
        invariant people == old(people) + EncodeAll(jsPeople[..i])
      {
        assert jsPeople[..i + 1][..i] == jsPeople[..i];
        people := people + [EncodeIgnore(jsPeople[i])];
      }
      assert jsPeople[..|jsPeople|] == jsPeople;
    }

    /** ALL_STATE: set the mode, store every listed image over the cache,
        append the listed people, then retrain unless in training mode. */
    method LoadState(jsImages: seq<JsImage>, training: bool, jsPeople: seq<string>)
      modifies this`images, this`training, this`people, this`svm, this`retrains
      ensures this.training == training
      ensures images == Overlay(old(images), jsImages)
      ensures people == old(people) + EncodeAll(jsPeople)
      ensures if training then svm == old(svm) && retrains == old(retrains)
              else SvmFitsCache() && retrains == old(retrains) + 1
    {
      this.training := training;
      LoadImages(jsImages);
      LoadPeople(jsPeople);
      if !training {
        TrainSvm();
      }
    }

    /** The hash/cache/predict loop of processFrame over the faces `faces`
        found in the frame, followed by the IDENTITIES and annotated-frame
        messages in recognition mode. `ok` is false when the loop raised. */
    method ProcessFrame(faces: seq<Option<Image>>, identity: int, vision: Vision)
      returns (ok: bool, events: seq<Event>, ghost embedded: seq<Image>)
      modifies this`images
      ensures var env := Env(training, svm, people, vision);
        var r := Run(env, old(images), identity, faces);
        && images == r.images
        && ok == !r.failed
        && events == Emitted(env, r)
        && embedded == r.embedded
    {
      ghost var env := Env(training, svm, people, vision);
      var id := identity;
      var identities: seq<int> := [];
      events, embedded, ok := [], [], true;
      var i := 0;
      while i < |faces| && ok
        modifies this`images
        invariant 0 <= i <= |faces|
        invariant Run(env, old(images), identity, faces[..i]) == FrameState(images, id, identities, events, embedded, !ok)
      {
        assert faces[..i + 1][..i] == faces[..i];
        match faces[i] {
          case None =>
          case Some(alignedFace) =>
            var phash := vision.phash(alignedFace);
            if phash in images {
              id := images[phash].identity;
              if !training && !Nameable(id, people) {
                ok := false;
              }
            } else {
              var rep := vision.embed(alignedFace);
              embedded := embedded + [alignedFace];
              if training {
                images := images[phash := Face(rep, id)];
                events := events + [NewImage(phash, id, rep)];
              } else {
                id := Predicted(svm, vision.predict, rep);
                if id !in identities {
                  identities := identities + [id];
                }
                if !Nameable(id, people) {
                  ok := false;
                }
              }
            }
        }
        i := i + 1;
      }
      if !ok {
        FailureIsFinal(env, old(images), identity, faces, i);
      } else {
        assert faces[..i] == faces;
      }
      if ok && !training {
        events := events + [Identities(identities), Annotated];
      }
    }

    /** FRAME: processFrame runs the face loop on the decoded frame and
        answers PROCESSED unless something raised; a frame that could not be
        decoded ends the message with nothing sent. */
    method OnFrame(dataURL: string, identity: int, vision: Vision) returns (events: seq<Event>)
      modifies this`images
      ensures old(ClassifierCurrent()) ==> ClassifierCurrent()
      ensures match FrameFaces(vision, dataURL)
        case None => images == old(images) && events == []
        case Some(faces) =>
          var env := Env(training, svm, people, vision);
          var r := Run(env, old(images), identity, faces);
          images == r.images && events == Emitted(env, r) + (if r.failed then [] else [Processed])
    {
      events := [];
      if !(JPEG_HEAD <= dataURL) {
        return;  // AssertionError
      }
      var decoded := vision.faces(dataURL[|JPEG_HEAD|..]);
      if decoded.None? {
        return;  // the decoder or the channel copy raised
      }
      var faces := decoded.value;
      if !training {
        RecognitionKeepsCache(Env(training, svm, people, vision), images, identity, faces);
      }
      var ok, frameEvents;
      ghost var embedded;
      ok, frameEvents, embedded := ProcessFrame(faces, identity, vision);
      events := if ok then frameEvents + [Processed] else frameEvents;
    }

    /** TRAINING: switch mode; leaving training mode retrains. */
    method OnTraining(val: bool)
      modifies this`training, this`svm, this`retrains
      ensures old(ClassifierCurrent()) ==> ClassifierCurrent()
      ensures training == val
      ensures if val then svm == old(svm) && retrains == old(retrains)
              else SvmFitsCache() && retrains == old(retrains) + 1
    {
      training := val;
      if !training {
        TrainSvm();
      }
    }

    /** UPDATE_IDENTITY: relabel a cached face, retraining in recognition
        mode; an unknown hash changes nothing. */
    method OnUpdateIdentity(hash: string, idx: int)
      modifies this`images, this`svm, this`retrains
      ensures old(ClassifierCurrent()) ==> ClassifierCurrent()
      ensures var h := EncodeIgnore(hash);
        if h in old(images) then
          && images == old(images)[h := Face(old(images)[h].rep, idx)]
          && (if training then svm == old(svm) && retrains == old(retrains)
              else SvmFitsCache() && retrains == old(retrains) + 1)
        else
          images == old(images) && svm == old(svm) && retrains == old(retrains)
    {
      var h := EncodeIgnore(hash);
      if h in images {
        images := images[h := images[h].(identity := idx)];
        if !training {
          TrainSvm();
        }
      }
    }

    /** REMOVE_IMAGE: drop a cached face, retraining in recognition mode; an
        unknown hash changes nothing. */
    method OnRemoveImage(hash: string)
      modifies this`images, this`svm, this`retrains
      ensures old(ClassifierCurrent()) ==> ClassifierCurrent()
      ensures var h := EncodeIgnore(hash);
        if h in old(images) then
          && images == old(images) - {h} && |images| == |old(images)| - 1
          && (if training then svm == old(svm) && retrains == old(retrains)
              else SvmFitsCache() && retrains == old(retrains) + 1)
        else
          images == old(images) && svm == old(svm) && retrains == old(retrains)
    {
      var h := EncodeIgnore(hash);
      if h in images {
        RemoveShrinksByOne(images, h);
        images := images - {h};
        if !training {
          TrainSvm();
        }
      }
    }

    /** REQ_TSNE: sendTSNE renders only when there is training data. */
    method OnReqTsne() returns (events: seq<Event>)
      ensures events == if AllUnknown(images) then [] else [TsneData]
    {
      var d;
      ghost var keys;
      d, keys := GetData();
      NoDataIffAllUnknown(images, unknownImgs, keys);
      events := if d.Some? then [TsneData] else [];
    }

    /** onMessage: each message type edits the session in one fixed way. */
    method OnMessage(msg: Message, vision: Vision) returns (events: seq<Event>)
      modifies this
      ensures old(ClassifierCurrent()) ==> ClassifierCurrent()
      ensures msg.AllState? ==>
        && training == msg.training
        && images == Overlay(old(images), msg.images)
        && people == old(people) + EncodeAll(msg.people)
        && (if msg.training then svm == old(svm) && retrains == old(retrains)
            else SvmFitsCache() && retrains == old(retrains) + 1)
        && events == []
      ensures msg.Null? ==> unchanged(this) && events == [NullReply]
      ensures msg.Frame? ==>
        && training == old(training) && people == old(people)
        && svm == old(svm) && retrains == old(retrains)
        && match FrameFaces(vision, msg.dataURL)
           case None => images == old(images) && events == []
           case Some(faces) =>
             var env := Env(training, svm, people, vision);
             var r := Run(env, old(images), msg.identity, faces);
             images == r.images && events == Emitted(env, r) + (if r.failed then [] else [Processed])
      ensures msg.Training? ==>
        && training == msg.val && images == old(images) && people == old(people)
        && (if msg.val then svm == old(svm) && retrains == old(retrains)
            else SvmFitsCache() && retrains == old(retrains) + 1)
        && events == []
      ensures msg.AddPerson? ==>
        && people == old(people) + [EncodeIgnore(msg.name)]
        && images == old(images) && training == old(training)
        && svm == old(svm) && retrains == old(retrains)
        && events == []
      ensures msg.UpdateIdentity? ==>
        var h := EncodeIgnore(msg.hash);
        && training == old(training) && people == old(people) && events == []
        && if h in old(images) then
             && images == old(images)[h := Face(old(images)[h].rep, msg.idx)]
             && (if training then svm == old(svm) && retrains == old(retrains)
                 else SvmFitsCache() && retrains == old(retrains) + 1)
           else
             images == old(images) && svm == old(svm) && retrains == old(retrains)
      ensures msg.RemoveImage? ==>
        var h := EncodeIgnore(msg.hash);
        && training == old(training) && people == old(people) && events == []
        && if h in old(images) then
             && images == old(images) - {h} && |images| == |old(images)| - 1
             && (if training then svm == old(svm) && retrains == old(retrains)
                 else SvmFitsCache() && retrains == old(retrains) + 1)
           else
             images == old(images) && svm == old(svm) && retrains == old(retrains)
      ensures msg.ReqTsne? ==> unchanged(this) && events == (if AllUnknown(images) then [] else [TsneData])
      ensures msg.Other? ==> unchanged(this) && events == []
    {
      events := [];
      match msg {
        case AllState(jsImages, t, jsPeople) =>
          LoadState(jsImages, t, jsPeople);
        case Null =>
          events := [NullReply];
        case Frame(dataURL, identity) =>
          events := OnFrame(dataURL, identity, vision);
        case Training(val) =>
          OnTraining(val);
        case AddPerson(name) =>
          people := people + [EncodeIgnore(name)];
        case UpdateIdentity(hash, idx) =>
          OnUpdateIdentity(hash, idx);
        case RemoveImage(hash) =>
          OnRemoveImage(hash);
        case ReqTsne(_) =>
          events := OnReqTsne();
        case Other(_) =>
      }
    }
  }
}
