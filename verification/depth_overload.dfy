/** The depth-overload command channel (src/backseat_api_overload.py):
    every depth command is range-checked against the configured limits; an
    out-of-range depth is replaced by the last valid one, or dropped when
    there is none. The module-level `_last_valid_depth` is threaded through
    as a value, and the outcome of the HTTP POST is a parameter. */
module DepthOverload {
  import opened Optional
  import opened Settings

  /** What the POST to the backseat API gave: a status code, or an exception. */
  datatype PostOutcome = Status(code: int) | PostRaised

  /** The result of `send_z_command`, the depth actually posted (if any)
      and the new last valid depth. */
  datatype SendResult = SendResult(ok: bool, posted: Option<real>, lastValid: Option<real>)

  predicate InLimits(z: real, cfg: Config) {
    cfg.minDepth <= z <= cfg.maxDepth
  }

  /** An optional depth that, when present, lies within the limits. */
  predicate OptInLimits(z: Option<real>, cfg: Config) {
    z.Some? ==> InLimits(z.value, cfg)
  }

  /** `send_z_command`. */
  function SendZCommand(lastValid: Option<real>, z: real, cfg: Config, post: PostOutcome): (r: SendResult)
    ensures InLimits(z, cfg) ==> r.posted == Some(z) && r.lastValid == Some(z)
    ensures !InLimits(z, cfg) && lastValid.Some? ==> r.posted == lastValid && r.lastValid == lastValid
    ensures !InLimits(z, cfg) && lastValid.None? ==> !r.ok && r.posted.None? && r.lastValid.None?
    ensures r.ok <==> r.posted.Some? && post == Status(200)
    ensures OptInLimits(lastValid, cfg) ==> OptInLimits(r.lastValid, cfg) && OptInLimits(r.posted, cfg)
  {
    if z < cfg.minDepth || z > cfg.maxDepth then
      match lastValid
      case None => SendResult(false, None, None)
      case Some(v) => Posted(v, lastValid, post)
    else
      Posted(z, Some(z), post)
  }

  /** The POST of a depth that passed the range check. */
  function Posted(z: real, lastValid: Option<real>, post: PostOutcome): SendResult {
    match post
    case Status(code) => SendResult(code == 200, Some(z), lastValid)
    case PostRaised => SendResult(false, Some(z), lastValid)
  }

  /** The depths posted by a sequence of commands, threading the last valid
      depth from one to the next. */
  function PostedDepths(lastValid: Option<real>, zs: seq<real>, posts: seq<PostOutcome>, cfg: Config): seq<real>
    requires |posts| == |zs|
    decreases |zs|
  {
    if |zs| == 0 then []
    else
      var r := SendZCommand(lastValid, zs[0], cfg, posts[0]);
      (if r.posted.Some? then [r.posted.value] else [])
      + PostedDepths(r.lastValid, zs[1..], posts[1..], cfg)
  }

  /** Starting without a valid depth (or with one inside the limits), every
      depth ever posted lies within `[min_depth, max_depth]`, whatever
      depths were requested. */
  lemma {:induction false} AllPostedInLimits(lastValid: Option<real>, zs: seq<real>,
                                             posts: seq<PostOutcome>, cfg: Config)
    requires |posts| == |zs|
    requires OptInLimits(lastValid, cfg)
    ensures forall i :: 0 <= i < |PostedDepths(lastValid, zs, posts, cfg)| ==>
              InLimits(PostedDepths(lastValid, zs, posts, cfg)[i], cfg)
    decreases |zs|
  {
    if |zs| > 0 {
      var r := SendZCommand(lastValid, zs[0], cfg, posts[0]);
      AllPostedInLimits(r.lastValid, zs[1..], posts[1..], cfg);
    }
  }
}
