/** Values shared by the face-recognition web server model: faces, cache
    entries, protocol messages, emitted events and the opaque vision
    collaborators (detection, alignment, perceptual hashing, the embedding
    network and the SVM classifier). */
module Model {

  datatype Option<T> = None | Some(value: T)

  /** A face embedding (`rep`); the model never looks inside it. */
  type Rep = seq<real>

  /** The pixels of an aligned face crop, as the aligner returns them. */
  type Image = seq<bv8>

  /** The string form of a perceptual hash: the key of the face cache. */
  type Hash = string

  /** The identity label of a face nobody has named yet. */
  const UNKNOWN: int := -1

  /** A cached observation: its embedding and the index of the person it shows. */
  datatype Face = Face(rep: Rep, identity: int)

  /** The feature rows X and labels y handed to the classifier. */
  datatype Samples = Samples(X: seq<Rep>, y: seq<int>)

  /** A fitted RBF support-vector classifier, represented by the samples it
      was fitted on, so that a retrain can be observed. */
  datatype Classifier = Svc(trained: Samples)

  /** One element of the `images` list of an ALL_STATE message. */
  datatype JsImage = JsImage(hash: string, representation: Rep, identity: int)

  /** A parsed client message, one variant per `type` the server knows;
      `Other` stands for any other type string. */
  datatype Message =
    | AllState(images: seq<JsImage>, training: bool, people: seq<string>)
    | Null
    | Frame(dataURL: string, identity: int)
    | Training(val: bool)
    | AddPerson(name: string)
    | UpdateIdentity(hash: string, idx: int)
    | RemoveImage(hash: string)
    | ReqTsne(people: seq<string>)
    | Other(kind: string)

  /** A message sent back to the client. Image payloads (the preview of a
      new face, the annotated frame, the t-SNE plot) are not modelled. */
  datatype Event =
    | NullReply
    | Processed
    | NewImage(hash: Hash, identity: int, representation: Rep)
    | Identities(identities: seq<int>)
    | Annotated
    | TsneData

  /** The external functions the frame pipeline calls:
      `faces` decodes the base64 JPEG payload, copies its channels into the
      300x400 RGB frame, detects the bounding boxes and aligns each one (None
      when alignment fails), in detection order; it is None when the
      payload does not decode to an image or the channel copy raises because
      the image array is not three-dimensional with at least three channels,
      or its height and width do not broadcast to 300x400;
      `phash` is the perceptual hash of an aligned crop; `embed` is the
      network's forward pass; `predict` is the classifier's first label. */
  datatype Vision = Vision(
    faces: string -> Option<seq<Option<Image>>>,
    phash: Image -> Hash,
    embed: Image -> Rep,
    predict: (Classifier, Rep) -> int)
}
