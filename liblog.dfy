/**
 * The log device as the service sees it through LibLog and its JNI glue.
 * The device itself is an oracle: the model only fixes how its raw return
 * values become either a result or a LibLogException.
 */
module LibLog {

  /** Outcome of one used-size (or total-size) query. */
  datatype Reading = Size(value: int) | Failure

  /** Outcome of one flush request. */
  datatype Status = Flushed | FlushFailed

  /**
   * A size query: a closed (or never opened) device and a negative return
   * value both raise LibLogException; otherwise the value is passed through.
   */
  function ReadSize(deviceOpen: bool, raw: int): (r: Reading)
    ensures r.Size? <==> deviceOpen && raw >= 0
    ensures r.Size? ==> r.value == raw
  {
    if !deviceOpen then Failure
    else if raw < 0 then Failure
    else Size(raw)
  }

  /**
   * A flush: a closed device or any non-zero return code from the device
   * raises LibLogException.
   */
  function FlushStatus(deviceOpen: bool, code: int): (st: Status)
    ensures st == Flushed <==> deviceOpen && code == 0
  {
    if !deviceOpen then FlushFailed
    else if code != 0 then FlushFailed
    else Flushed
  }
}
