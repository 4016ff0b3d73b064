/** Loading the classifier in ar-model/app.js: the validation `fetchOnnxBytes`
    applies to the model file, and the WebAssembly thread count `ensureOrtModule`
    configures. */
module ModelLoading {
  import opened Wrappers

  newtype byte = x: int | 0 <= x < 256

  /** The HTTP status and body of a completed `fetch`. */
  datatype Response = Response(status: int, body: seq<byte>)

  /** `res.ok`: a status in the range 200-299. */
  predicate IsOk(status: int) {
    200 <= status <= 299
  }

  /** The errors `fetchOnnxBytes` throws: the rejection of `fetch` itself, and its
      three checks. */
  datatype LoadError =
    | FetchFailed
    | HttpStatus(status: int)
    | TooSmall(size: nat)
    | LooksLikeHtml(ltCount: nat)

  /** The size floor: 100 KiB. */
  const MinModelSize: nat := 100 * 1024

  /** The ASCII code of `<`. */
  const AsciiLT: byte := 60

  /** How many bytes are inspected: `Math.min(16, bytes.length)`. */
  function Inspected(n: nat): (m: nat)
    ensures m <= n && m <= 16 && (m == n || m == 16)
  {
    if n < 16 then n else 16
  }

  /** How many of the inspected bytes are `<`. */
  function AngleCount(body: seq<byte>): nat {
    multiset(body[..Inspected(|body|)])[AsciiLT]
  }

  /** The fetched body is rejected as HTML: more than two of its first bytes are `<`. */
  predicate LooksHtml(body: seq<byte>) {
    AngleCount(body) > 2
  }

  /** A response whose body `fetchOnnxBytes` hands on as the model. */
  predicate Acceptable(res: Response) {
    IsOk(res.status) && |res.body| >= MinModelSize && !LooksHtml(res.body)
  }

  /** The checks `fetchOnnxBytes` applies to a response it fetched. */
  method ValidateModelResponse(res: Response) returns (r: Result<seq<byte>, LoadError>)
    ensures !IsOk(res.status) ==> r == Err(HttpStatus(res.status))
    ensures IsOk(res.status) && |res.body| < MinModelSize ==> r == Err(TooSmall(|res.body|))
    ensures IsOk(res.status) && |res.body| >= MinModelSize && LooksHtml(res.body) ==>
              r == Err(LooksLikeHtml(AngleCount(res.body)))
    ensures r.Ok? <==> Acceptable(res)
    ensures r.Ok? ==> r.value == res.body
  {
    if !IsOk(res.status) {
      return Err(HttpStatus(res.status));
    }
    var bytes := res.body;
    if |bytes| < MinModelSize {
      return Err(TooSmall(|bytes|));
    }
    var asciiLike: nat := 0;
    var i := 0;
    while i < Inspected(|bytes|)
      invariant 0 <= i <= Inspected(|bytes|)
      invariant asciiLike == multiset(bytes[..i])[AsciiLT]
    {
      assert bytes[..i + 1] == bytes[..i] + [bytes[i]];
      if bytes[i] == AsciiLT {
        asciiLike := asciiLike + 1;
      }
      i := i + 1;
    }
    if asciiLike > 2 {
      return Err(LooksLikeHtml(asciiLike));
    }
    return Ok(bytes);
  }

  /** A body of at least 100 KiB whose first 16 bytes hold at most two `<` passes the
      heuristic, even when it is an HTML page such as `<html>...` or
      `<!DOCTYPE html>\n<html>...`. */
  lemma HtmlWithFewAnglesPasses(body: seq<byte>)
    requires |body| >= MinModelSize
    requires body[0] == AsciiLT
    requires forall i :: 1 <= i < 16 ==> body[i] != AsciiLT
    ensures !LooksHtml(body)
  {
    var head := body[..16];
    assert head == [body[0]] + head[1..];
    assert AsciiLT !in head[1..];
    assert multiset(head)[AsciiLT] == 1;
  }

  /** A body of at least 100 KiB with no `<` among its first 16 bytes passes the
      heuristic. */
  lemma NoAngleBracketsPass(body: seq<byte>)
    requires |body| >= MinModelSize
    requires forall i :: 0 <= i < 16 ==> body[i] != AsciiLT
    ensures !LooksHtml(body)
  {
    assert AsciiLT !in body[..16];
  }

  /** Three `<` among the first 16 bytes are enough to reject. */
  lemma ThreeAnglesReject(body: seq<byte>, a: nat, b: nat, c: nat)
    requires |body| >= 16 && a < b < c < 16
    requires body[a] == AsciiLT && body[b] == AsciiLT && body[c] == AsciiLT
    ensures LooksHtml(body)
  {
    var head := body[..16];
    assert head == head[..a] + [head[a]] + head[a + 1..b] + [head[b]] + head[b + 1..c] + [head[c]] + head[c + 1..];
  }

  /** The WebAssembly thread count: `isolated ? Math.min(4, Math.max(1, cores)) : 1`,
      where `isolated` is `crossOriginIsolated` (false when undefined) and `cores` is
      `navigator.hardwareConcurrency`, or 2 when that is undefined or 0. */
  function NumThreads(crossOriginIsolated: Option<bool>, hardwareConcurrency: Option<int>): (n: int)
    ensures 1 <= n <= 4
    ensures crossOriginIsolated != Some(true) ==> n == 1
    ensures (crossOriginIsolated == Some(true) && hardwareConcurrency.Some? &&
             1 <= hardwareConcurrency.value <= 4) ==> n == hardwareConcurrency.value
    ensures (crossOriginIsolated == Some(true) && hardwareConcurrency.Some? &&
             hardwareConcurrency.value > 4) ==> n == 4
    ensures crossOriginIsolated == Some(true) && hardwareConcurrency.GetOr(0) == 0 ==> n == 2
  {
    var isolated := crossOriginIsolated.GetOr(false);
    var cores := if hardwareConcurrency.GetOr(0) != 0 then hardwareConcurrency.value else 2;
    if isolated then Min(4, Max(1, cores)) else 1
  }

  function Min(a: int, b: int): int { if a < b then a else b }
  function Max(a: int, b: int): int { if a < b then b else a }
}
