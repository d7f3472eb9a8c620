/** The synthetic upload body: a reader that hands out zero-filled chunks of
    8192 bytes until the target size is reached or its time budget is spent. */
module UploadData {
  import opened Time

  /** The number of bytes every productive read emits. */
  const ChunkSize: nat := 8192

  /** How many bytes a read emits, given the bytes sent so far, the target,
      the budget in seconds and the milliseconds elapsed since construction. */
  function Emitted(current: nat, total: nat, timeoutSecs: nat, elapsedMillis: nat): (n: nat)
    ensures n == 0 || n == ChunkSize
    ensures n == ChunkSize <==> current < total && elapsedMillis <= timeoutSecs * 1000
  {
    if total - current > 0 && elapsedMillis <= timeoutSecs * 1000 then ChunkSize else 0
  }

  class UploadSource {
    var totalDataSize: nat
    var timeoutInSec: nat
    /** The clock reading taken at construction. */
    var startTime: nat
    var currentSize: nat

    /** The counter has not passed the target, so `total - current` does not
        underflow. */
    ghost predicate InBounds()
      reads this
    {
      currentSize <= totalDataSize
    }

    /** Target and counter are whole numbers of chunks. */
    ghost predicate Aligned()
      reads this
    {
      totalDataSize % ChunkSize == 0 && currentSize % ChunkSize == 0
    }

    /** `UploadData::new(n, timeout_secs)`; `now` is the clock reading. */
    constructor (n: nat, timeoutSecs: nat, now: nat)
      ensures totalDataSize == n && timeoutInSec == timeoutSecs
      ensures startTime == now && currentSize == 0
      ensures InBounds()
      ensures n % ChunkSize == 0 ==> Aligned()
    {
      totalDataSize := n;
      timeoutInSec := timeoutSecs;
      startTime := now;
      currentSize := 0;
    }

    /** `Read::read`: with bytes still to send and the budget not exceeded,
        zero the first 8192 bytes of `buf`, advance the counter by 8192 and
        return 8192, whatever the buffer's length; otherwise return 0 and
        change nothing. `elapsed` is the time since `startTime`. The error
        result of the source is never produced: it sits behind a test that
        an unsigned value is negative. */
    method Read(buf: array<bv8>, elapsed: Duration) returns (n: nat)
      requires elapsed.Valid()
      requires InBounds()
      requires currentSize < totalDataSize && AsMillis(elapsed) <= timeoutInSec * 1000 ==> buf.Length >= ChunkSize
      modifies this, buf
      ensures n == Emitted(old(currentSize), totalDataSize, timeoutInSec, AsMillis(elapsed))
      ensures currentSize == old(currentSize) + n
      ensures totalDataSize == old(totalDataSize) && timeoutInSec == old(timeoutInSec)
      ensures startTime == old(startTime)
      ensures n == ChunkSize ==> forall i :: 0 <= i < ChunkSize ==> buf[i] == 0
      ensures n == ChunkSize ==> forall i :: ChunkSize <= i < buf.Length ==> buf[i] == old(buf[i])
      ensures n == 0 ==> buf[..] == old(buf[..])
      ensures currentSize < totalDataSize + ChunkSize
      ensures old(Aligned()) ==> Aligned() && InBounds()
    {
      var dataToSend := totalDataSize - currentSize;
      var elapsedInMillis := AsMillis(elapsed);
      if dataToSend > 0 && elapsedInMillis <= timeoutInSec * 1000 {
        for i := 0 to ChunkSize
          modifies buf
          invariant forall k :: 0 <= k < i ==> buf[k] == 0
          invariant forall k :: i <= k < buf.Length ==> buf[k] == old(buf[k])
        {
          buf[i] := 0;
        }
        currentSize := currentSize + ChunkSize;
        n := ChunkSize;
      } else {
        n := 0;
      }
    }
  }
}
