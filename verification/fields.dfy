/** Reading one numeric field of a tokenised line, the way `int(cols[i])` and
    `float(cols[i])` do: an index past the end raises `IndexError`, text the
    conversion refuses raises `ValueError`. */
module Fields {
  import opened Wrappers
  import opened Numbers

  function IntField(cols: seq<string>, i: nat): (r: Result<int, PyError>)
    ensures i >= |cols| <==> r == Failure(IndexError)
    ensures r.Success? <==> i < |cols| && ParseInt(cols[i]).Some?
  {
    if i < |cols| then
      match ParseInt(cols[i])
      case Some(n) => Success(n)
      case None => Failure(ValueError(cols[i]))
    else Failure(IndexError)
  }

  function RealField(cols: seq<string>, i: nat, toFloat: FloatParser): (r: Result<real, PyError>)
    ensures i >= |cols| <==> r == Failure(IndexError)
    ensures r.Success? <==> i < |cols| && toFloat(cols[i]).Some?
  {
    if i < |cols| then
      match toFloat(cols[i])
      case Some(x) => Success(x)
      case None => Failure(ValueError(cols[i]))
    else Failure(IndexError)
  }
}
