/** The growing array of polled file descriptors (src/poll.c). */
module Poll {

  /** The part of struct pollfd that is set here. */
  datatype PollFd = PollFd(fd: int, events: int)

  const INITIAL_SIZE := 10
  const POLLIN := 1

  /** The next capacity: the growth factor 1.618 times the old one, rounded down. */
  function Grown(max: nat): nat {
    1618 * max / 1000
  }

  /** From the initial size on, growing means growing by half at least. */
  lemma {:induction false} GrownByHalf(max: nat)
    requires max >= INITIAL_SIZE
    ensures 2 * Grown(max) >= 3 * max
  {}

  class PollSet {
    var initialized: bool
    var mainPoll: array<PollFd>
    var len: nat
    var maxLen: nat

    /** How many entries reallocation has moved, and how many of them for calls that then failed. */
    ghost var moved: nat
    ghost var wasted: nat

    ghost predicate Shows(entries: seq<PollFd>)
      reads this, mainPoll
    {
      && len == |entries| && (initialized ==> len < maxLen <= mainPoll.Length && mainPoll[..len] == entries)
      && Amortised()
    }

    /** Reallocation has moved at most three times as many entries as there are, apart from what
        failed calls have cost. */
    ghost predicate Amortised()
      reads this
    {
      initialized ==>
        maxLen >= 10 && moved <= wasted + 3 * len && moved <= wasted + 2 * (maxLen - 10)
    }

    constructor ()
      ensures !initialized && Shows([])
    {
      initialized, len, maxLen, moved, wasted := false, 0, 0, 0, 0;
      mainPoll := new PollFd[0];
    }

    /** fra_p_poll_init: the first descriptor polled is the one requests come in on. */
    method Init(mallocOk: bool, callbacksOk: bool, ghost entries: seq<PollFd>) returns (rc: int)
      requires Shows(entries) && (!initialized ==> entries == [] && moved == wasted)
      modifies this
      ensures rc == if !old(initialized) && mallocOk && callbacksOk then 0 else -1
      ensures rc == 0 ==> initialized && maxLen == 10 && Shows([PollFd(0, 1)])
      ensures rc != 0 ==> initialized == old(initialized) && Shows(entries)
      ensures moved == old(moved) && wasted == old(wasted)
    {
      if initialized || !mallocOk || !callbacksOk {
        return -1;
      }
      mainPoll := new PollFd[INITIAL_SIZE];
      len, maxLen := 0, INITIAL_SIZE;
      initialized := true;
      rc := FdAdd(0, POLLIN, true, true, []);
    }

    /** main_poll_maybe_grow: makes room for one more entry and one beyond. */
    method MaybeGrow(pollOk: bool, callbacksOk: bool, ghost entries: seq<PollFd>) returns (rc: int)
      requires initialized && Shows(entries)
      modifies this
      ensures initialized && len == old(len) && mainPoll.Length >= maxLen > len && mainPoll[..len] == entries
      ensures mainPoll == old(mainPoll) || fresh(mainPoll)
      ensures rc == if old(len) < old(maxLen) - 1 || (pollOk && callbacksOk) then 0 else -1
      ensures maxLen == if rc == 0 && old(len) == old(maxLen) - 1 then 1618 * old(maxLen) / 1000 else old(maxLen)
      ensures moved == old(moved) + if old(len) == old(maxLen) - 1 && pollOk then old(maxLen) else 0
      ensures wasted == old(wasted) + if old(len) == old(maxLen) - 1 && pollOk && !callbacksOk then old(maxLen) else 0
      ensures rc != 0 ==> Amortised()
      ensures rc == 0 ==> len + 1 < maxLen && maxLen >= INITIAL_SIZE
                          && moved <= wasted + 3 * (len + 1) && moved <= wasted + 2 * (maxLen - INITIAL_SIZE)
    {
      if !(len < maxLen) {
        return -1;
      }
      if len == maxLen - 1 {
        var newMax := Grown(maxLen);
        GrownByHalf(maxLen);
        if !(newMax > maxLen) {
          return -1;
        }
        if !pollOk {
          return -1;
        }
        Realloc(newMax, entries);
        if !callbacksOk {
          wasted := wasted + maxLen;
          return -1;
        }
        maxLen := newMax;
      }
      return 0;
    }

    /** realloc of main_poll. */
    method Realloc(newMax: nat, ghost entries: seq<PollFd>)
      requires len < maxLen <= mainPoll.Length && maxLen < newMax && mainPoll[..len] == entries
      modifies `mainPoll, `moved
      ensures fresh(mainPoll) && mainPoll.Length == newMax && mainPoll[..len] == entries
      ensures moved == old(moved) + maxLen
    {
      var tmp := new PollFd[newMax];
      var i := 0;
      while i < maxLen
        invariant 0 <= i <= maxLen && mainPoll == old(mainPoll) && moved == old(moved) && mainPoll[..len] == entries
        invariant forall j :: 0 <= j < i ==> tmp[j] == mainPoll[j]
      {
        tmp[i] := mainPoll[i];
        i := i + 1;
      }
      mainPoll := tmp;
      moved := moved + maxLen;
    }

    /** fd_add: appends one entry and keeps those before it. */
    method FdAdd(fd: int, events: int, pollOk: bool, callbacksOk: bool, ghost entries: seq<PollFd>) returns (rc: int)
      requires Shows(entries)
      modifies this, mainPoll
      ensures initialized == old(initialized)
      ensures rc == if initialized && (|entries| < old(maxLen) - 1 || (pollOk && callbacksOk)) then 0 else -1
      ensures Shows(if rc == 0 then entries + [PollFd(fd, events)] else entries)
      ensures old(initialized) ==>
                maxLen == if rc == 0 && |entries| == old(maxLen) - 1 then 1618 * old(maxLen) / 1000 else old(maxLen)
      ensures old(initialized) ==>
                moved == old(moved) + if |entries| == old(maxLen) - 1 && pollOk then old(maxLen) else 0
      ensures old(initialized) && rc != 0 && pollOk ==> wasted == old(wasted) + old(maxLen)
      ensures rc == 0 || !pollOk ==> wasted == old(wasted)
      ensures rc == 0 ==> moved <= wasted + 3 * len
    {
      if !initialized {
        return -1;
      }
      rc := MaybeGrow(pollOk, callbacksOk, entries);
      if rc != 0 {
        return -1;
      }
      mainPoll[len] := PollFd(fd, events);
      len := len + 1;
    }
  }
}
