/** Types shared by the storage and the query models. */
module Common {

  datatype Option<+T> = None | Some(value: T)

  datatype Result<+T, +E> = Ok(value: T) | Err(error: E)

  /** One byte of a page, a record payload or a source text. */
  newtype byte = x: int | 0 <= x < 256

  /** The bytes of one page. The page-level models fix the length at PAGE_SIZE. */
  type RawPage = seq<byte>

  const PAGE_SIZE: nat := 4096

  /** RawPage{}: a page of zero bytes. */
  function ZeroPage(): (r: RawPage)
    ensures |r| == PAGE_SIZE && forall i :: 0 <= i < PAGE_SIZE ==> r[i] == 0
  {
    seq(PAGE_SIZE, _ => 0)
  }

  function Pow2(n: nat): (r: nat)
    ensures r > 0
  {
    if n == 0 then 1 else 2 * Pow2(n - 1)
  }
}
