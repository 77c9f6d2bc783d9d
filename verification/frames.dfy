/** `VideoTransformTrack`: a media track that wraps one inbound video track and
    rewrites each frame it pulls according to a transform name. The OpenCV
    pipelines themselves are opaque functions supplied by the caller. */
module Frames {
  import opened Results

  /** A `time_base`, a rational number of seconds per tick. */
  datatype Fraction = Fraction(num: int, den: int)

  /** A decoded frame: its picture is opaque, its timing is what `recv` must keep. */
  datatype Frame<Img> = Frame(image: Img, pts: int, timeBase: Fraction)

  /** The three image pipelines (cartoon stylisation, Canny edges, time-dependent
      rotation). Each reads the whole input frame, since rotation depends on its
      time, and produces a new picture. */
  datatype Filters<!Img> = Filters(
    cartoon: Frame<Img> -> Img,
    edges: Frame<Img> -> Img,
    rotate: Frame<Img> -> Img)

  /** Pulling from a track that has ended raises `MediaStreamError`. */
  datatype MediaStreamError = TrackEnded

  /** The wrapped inbound track, as the frames it has still to deliver, and the
      transform name chosen when the track was constructed. */
  datatype TransformTrack<Img> = TransformTrack(source: seq<Frame<Img>>, transform: string)

  /** The names that select a pipeline; any other string passes frames through. */
  predicate IsFilter(transform: string) {
    transform == "cartoon" || transform == "edges" || transform == "rotate"
  }

  /** The branch of `recv` taken after a frame is pulled. A filtered frame is a
      new frame carrying the input's `pts` and `time_base`; an unknown name
      returns the input frame itself. */
  function Transform<Img>(transform: string, f: Frame<Img>, filters: Filters<Img>): (r: Frame<Img>)
    ensures r.pts == f.pts && r.timeBase == f.timeBase
    ensures !IsFilter(transform) ==> r == f
    ensures transform == "cartoon" ==> r.image == filters.cartoon(f)
    ensures transform == "edges" ==> r.image == filters.edges(f)
    ensures transform == "rotate" ==> r.image == filters.rotate(f)
  {
    if transform == "cartoon" then Frame(filters.cartoon(f), f.pts, f.timeBase)
    else if transform == "edges" then Frame(filters.edges(f), f.pts, f.timeBase)
    else if transform == "rotate" then Frame(filters.rotate(f), f.pts, f.timeBase)
    else f
  }

  /** `recv`: pulls the next frame of the wrapped track and transforms it; an
      ended track propagates its error. */
  function Recv<Img>(t: TransformTrack<Img>, filters: Filters<Img>): (r: Result<(Frame<Img>, TransformTrack<Img>), MediaStreamError>)
    ensures t.source == [] <==> r == Err(TrackEnded)
    ensures r.Ok? ==>
      && r.value.1 == TransformTrack(t.source[1..], t.transform)
      && r.value.0 == Transform(t.transform, t.source[0], filters)
  {
    if t.source == [] then Err(TrackEnded)
    else Ok((Transform(t.transform, t.source[0], filters), TransformTrack(t.source[1..], t.transform)))
  }

  /** A consumer pulling until the track ends: it sees one output frame per
      input frame, in order, each with the input's timing, and the very input
      frames when the name selects no pipeline. */
  method Drain<Img>(track: TransformTrack<Img>, filters: Filters<Img>) returns (out: seq<Frame<Img>>)
    ensures |out| == |track.source|
    ensures forall i :: 0 <= i < |out| ==>
      out[i] == Transform(track.transform, track.source[i], filters)
    ensures forall i :: 0 <= i < |out| ==>
      out[i].pts == track.source[i].pts && out[i].timeBase == track.source[i].timeBase
    ensures !IsFilter(track.transform) ==> out == track.source
  {
    var t := track;
    out := [];
    while true
      invariant t.transform == track.transform
      invariant |out| <= |track.source| && t.source == track.source[|out|..]
      invariant forall i :: 0 <= i < |out| ==>
        out[i] == Transform(track.transform, track.source[i], filters)
      decreases |t.source|
    {
      match Recv(t, filters)
      case Err(_) =>
        return;
      case Ok(pulled) =>
        out := out + [pulled.0];
        t := pulled.1;
    }
  }
}
