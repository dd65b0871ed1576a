/**
 The 8-bit lock counts of a queue in freertos/source/queue.c, cRxLock and
 cTxLock: -1 while the queue is unlocked, else the number of operations by
 interrupts since it was locked, as far as an int8_t can count them.
 */
module LockCount {

  const UNLOCKED: int := -1
  const INT8_MAX: int := 127

  type int8 = i: int | -128 <= i < 128

  /** How often prvUnlockQueue goes round its loop */
  function Positive(lock: int): nat {
    if lock > 0 then lock else 0
  }

  /** (int8_t)( lock + 1 ) */
  function Incremented(lock: int): int {
    if lock == INT8_MAX then -INT8_MAX - 1 else lock + 1
  }

  /** A count that started at 0, after `k` operations: from the 255th on it reads as unlocked. */
  function CountAfter(k: nat): int {
    if k <= INT8_MAX then k else if k < 255 then k - 256 else UNLOCKED
  }

  /** How many of `k` operations the count has taken in; the others have found the queue unlocked. */
  function Counted(k: nat): nat {
    if k < 255 then k else 255
  }

  /** The operations a count stands for, none if it reads as unlocked */
  function Operations(lock: int): int {
    if lock < UNLOCKED then lock + 256 else if lock == UNLOCKED then 0 else lock
  }

  /**
   Whether the lock, if there is one, has counted fewer than `limit` operations;
   from 255 on that is no limit, because the 255th makes the queue read as
   unlocked.
   */
  predicate Within(lock: int, limit: nat) {
    lock != UNLOCKED ==> Operations(lock) < limit
  }

  /** The count moves on until it reads as unlocked, and stands for all the operations until then. */
  lemma CountOneMore(k: nat)
    ensures CountAfter(k) == UNLOCKED <==> k >= 255
    ensures k < 255 ==> CountAfter(k + 1) == Incremented(CountAfter(k)) && Operations(CountAfter(k)) == k
    ensures k >= 255 ==> CountAfter(k + 1) == UNLOCKED
  {
  }
}
