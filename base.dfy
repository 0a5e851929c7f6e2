/** Fixed-width integer types, Option/Result, and a failing map over a sequence,
    shared by every other module of the model. */
module Base {

  /** Rust's unsigned and signed machine integers, as ranges of unbounded ints. */
  type u8 = x: int | 0 <= x < 0x100
  type u32 = x: int | 0 <= x < 0x1_0000_0000
  type u64 = x: int | 0 <= x < 0x1_0000_0000_0000_0000
  type i64 = x: int | -0x8000_0000_0000_0000 <= x < 0x8000_0000_0000_0000

  /** IEEE-754 payloads are carried as their bit patterns; no arithmetic is done on them. */
  type Float32Bits = u32
  type Float64Bits = u64

  datatype Option<+T> = None | Some(value: T)

  datatype Result<+T, +E> = Ok(value: T) | Err(error: E)

  /** Applies `f` to every element in order; the first failure aborts the whole map
      (the source panics at the first bad element, which stops the loop there). */
  function MapAll<A, B, E>(xs: seq<A>, f: A -> Result<B, E>): (r: Result<seq<B>, E>)
    ensures r.Ok? <==> forall i :: 0 <= i < |xs| ==> f(xs[i]).Ok?
    ensures r.Ok? ==> |r.value| == |xs| && forall i :: 0 <= i < |xs| ==> r.value[i] == f(xs[i]).value
    ensures r.Err? ==> exists k :: 0 <= k < |xs| && f(xs[k]).Err? && r.error == f(xs[k]).error &&
                                   forall j :: 0 <= j < k ==> f(xs[j]).Ok?
    decreases |xs|
  {
    if xs == [] then Ok([])
    else match f(xs[0])
      case Err(e) => Err(e)
      case Ok(y) =>
        match MapAll(xs[1..], f)
        case Err(e) =>
          assert exists k :: 0 <= k < |xs| && f(xs[k]).Err? && e == f(xs[k]).error &&
                             forall j :: 0 <= j < k ==> f(xs[j]).Ok? by {
            var k :| 0 <= k < |xs| - 1 && f(xs[1..][k]).Err? && e == f(xs[1..][k]).error &&
                     forall j :: 0 <= j < k ==> f(xs[1..][j]).Ok?;
            forall j | 0 <= j < k + 1 ensures f(xs[j]).Ok? {
              if j > 0 { assert xs[j] == xs[1..][j - 1]; }
            }
            assert xs[k + 1] == xs[1..][k];
          }
          Err(e)
        case Ok(ys) =>
          assert forall i :: 0 <= i < |xs| ==> f(xs[i]).Ok? by {
            forall i | 0 <= i < |xs| ensures f(xs[i]).Ok? {
              if i > 0 { assert xs[i] == xs[1..][i - 1]; }
            }
          }
          Ok([y] + ys)
  }
}
