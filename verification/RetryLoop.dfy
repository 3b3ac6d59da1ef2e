/** The bounded retry loops of the HTTP client: how often they try, how long they sleep, and what they leave on disk. */
module RetryLoop {
  import opened Bytes
  import opened PyText

  /**
   What one attempt meets: no connection, or a status and a body that arrives in chunks and may break off
   after them.
   */
  datatype Reply = NoConnection | Response(status: nat, chunks: seq<seq<byte>>, breaksOff: bool)

  datatype Answer = Bytes(body: seq<byte>) | Saved(length: nat) | NetworkUnreachable | HttpError(status: nat) | TooLarge

  predicate ShouldRetry(status: nat) {
    status == 429 || 500 <= status <= 599
  }

  /** Writing stops at the first chunk that takes the total over the limit. */
  predicate Exceeds(chunks: seq<seq<byte>>, limit: Option<nat>) {
    limit.Some? && |Flat(chunks)| > limit.value
  }

  /**
   A request for bytes reads the whole body before it looks at the status, so a body that breaks off is a
   failed connection whatever the status; a download looks at the status first.
   */
  function ReadWhole(replies: nat -> Reply): nat -> Reply {
    (i: nat) => var r := replies(i); if r.Response? && r.breaksOff then NoConnection else r
  }

  /** Which failures of an attempt are tried again, as long as attempts are left. */
  predicate Retryable(r: Reply, expected: set<nat>, limit: Option<nat>) {
    match r
    case NoConnection => true
    case Response(status, chunks, breaksOff) =>
      if status in expected then breaksOff && !Exceeds(chunks, limit) else ShouldRetry(status)
  }

  /** What the last attempt ends the call with. */
  function Final(r: Reply, expected: set<nat>, limit: Option<nat>, toFile: bool): Answer {
    match r
    case NoConnection => NetworkUnreachable
    case Response(status, chunks, breaksOff) =>
      if status !in expected then HttpError(status)
      else if Exceeds(chunks, limit) then TooLarge
      else if breaksOff then NetworkUnreachable
      else if toFile then Saved(|Flat(chunks)|) else Bytes(Flat(chunks))
  }

  /** The attempt that ends the call: the first that is not tried again, or the last there is. */
  function LastAttempt(replies: nat -> Reply, expected: set<nat>, limit: Option<nat>, i: nat, retries: nat): (k: nat)
    requires i <= retries
    ensures i <= k <= retries
    ensures forall j :: i <= j < k ==> Retryable(replies(j), expected, limit)
    ensures k == retries || !Retryable(replies(k), expected, limit)
    decreases retries - i
  {
    if i == retries || !Retryable(replies(i), expected, limit) then i
    else LastAttempt(replies, expected, limit, i + 1, retries)
  }

  /** A request for bytes ends unreachable exactly if it has no attempt left and the last reply did not arrive whole. */
  lemma BrokenOffIsUnreachable(replies: nat -> Reply, expected: set<nat>, retries: nat)
    ensures var k := LastAttempt(ReadWhole(replies), expected, None, 0, retries);
            Final(ReadWhole(replies)(k), expected, None, false) == NetworkUnreachable <==>
              k == retries && (replies(k).NoConnection? || replies(k).breaksOff)
  {
  }

  /** What is worth another attempt: no full reply, too many requests, or an error of the server. */
  ghost predicate Transient(r: Reply, expected: set<nat>) {
    || r == NoConnection
    || r.breaksOff
    || (r.status !in expected && (r.status == 429 || r.status / 100 == 5))
  }

  /** Main result: the call ends at the first attempt that is not worth repeating, or else at the last there is. */
  lemma BytesRetriedIff(replies: nat -> Reply, expected: set<nat>, retries: nat, k: nat)
    ensures k == LastAttempt(ReadWhole(replies), expected, None, 0, retries) <==>
              k <= retries && (forall j :: 0 <= j < k ==> Transient(replies(j), expected))
              && (Transient(replies(k), expected) ==> k == retries)
  {
    var last := LastAttempt(ReadWhole(replies), expected, None, 0, retries);
    forall j: nat ensures Retryable(ReadWhole(replies)(j), expected, None) <==> Transient(replies(j), expected) {}
    if k < last { assert Transient(replies(k), expected); }
    if last < k { assert Transient(replies(last), expected) ==> last == retries; }
  }

  /** ... and answers the body of a whole reply with an expected status, or says what went wrong. */
  lemma BytesAnswer(r: Reply, expected: set<nat>, answer: Answer)
    ensures answer == Final(ReadWhole(_ => r)(0), expected, None, false) <==>
              match r
              case NoConnection => answer == NetworkUnreachable
              case Response(status, chunks, breaksOff) =>
                if breaksOff then answer == NetworkUnreachable
                else answer == (if status in expected then Bytes(Flat(chunks)) else HttpError(status))
  {
  }

  /** A download answers how much it has saved: the body of a whole reply within the limit. */
  lemma DownloadAnswer(r: Reply, expected: set<nat>, limit: Option<nat>, answer: Answer)
    ensures answer == Final(r, expected, limit, true) <==>
              match r
              case NoConnection => answer == NetworkUnreachable
              case Response(status, chunks, breaksOff) =>
                if status !in expected then answer == HttpError(status)
                else if limit.Some? && limit.value < |Flat(chunks)| then answer == TooLarge
                else answer == (if breaksOff then NetworkUnreachable else Saved(|Flat(chunks)|))
  {
  }

  /** The download repeats failed connections, transient statuses, and bodies that break off within the limit. */
  ghost predicate DownloadTransient(r: Reply, expected: set<nat>, limit: Option<nat>) {
    || r == NoConnection
    || (r.status !in expected && (r.status == 429 || r.status / 100 == 5))
    || (r.status in expected && r.breaksOff && (limit.Some? ==> |Flat(r.chunks)| <= limit.value))
  }

  /** The same for downloads. */
  lemma DownloadRetriedIff(replies: nat -> Reply, expected: set<nat>, limit: Option<nat>, retries: nat, k: nat)
    ensures k == LastAttempt(replies, expected, limit, 0, retries) <==>
              k <= retries && (forall j :: 0 <= j < k ==> DownloadTransient(replies(j), expected, limit))
              && (DownloadTransient(replies(k), expected, limit) ==> k == retries)
  {
    var last := LastAttempt(replies, expected, limit, 0, retries);
    forall j: nat
      ensures Retryable(replies(j), expected, limit) <==> DownloadTransient(replies(j), expected, limit) {}
    if k < last { assert DownloadTransient(replies(k), expected, limit); }
    if last < k { assert DownloadTransient(replies(last), expected, limit) ==> last == retries; }
  }

  /** The sleep after failed attempt `i`, before the jitter. */
  function Delay(backoff: real, i: nat): real {
    backoff * Pow2(i) as real
  }

  function TotalDelay(backoff: real, n: nat): real {
    if n == 0 then 0.0 else TotalDelay(backoff, n - 1) + Delay(backoff, n - 1)
  }

  lemma {:induction false} TotalDelayIs(backoff: real, n: nat)
    ensures TotalDelay(backoff, n) == backoff * (Pow2(n) - 1) as real
  {
    if n > 0 {
      TotalDelayIs(backoff, n - 1);
      var p := Pow2(n - 1) as real;
      assert (Pow2(n) - 1) as real == (p - 1.0) + p;
    }
  }

  /** The time slept after `n` failed attempts, with any jitter up to the backoff. */
  ghost predicate SleptFor(slept: real, backoff: real, n: nat) {
    if backoff <= 0.0 then slept == 0.0
    else TotalDelay(backoff, n) <= slept <= TotalDelay(backoff, n) + n as real * backoff
  }

  /** However many of the `retries` were used, a call sleeps at most `backoff * (2^retries - 1) + retries * backoff`. */
  lemma SleepBound(slept: real, backoff: real, k: nat, retries: nat)
    requires backoff >= 0.0 && SleptFor(slept, backoff, k) && k <= retries
    ensures 0.0 <= slept <= backoff * (Pow2(retries) - 1) as real + retries as real * backoff
  {
    TotalDelayIs(backoff, retries);
    DelaysGrow(backoff, k, retries);
    DelaysGrow(backoff, 0, k);
    if backoff <= 0.0 {
      assert backoff == 0.0;
    }
  }

  lemma {:induction false} DelaysGrow(backoff: real, m: nat, n: nat)
    requires backoff >= 0.0 && m <= n
    ensures TotalDelay(backoff, m) <= TotalDelay(backoff, n)
    decreases n
  {
    if m < n {
      DelaysGrow(backoff, m, n - 1);
    }
  }

  class HttpImmichClient {
    const maxRetries: nat
    const backoff: real
    /** Attempts and sleeping of the last call; the destination file, if it exists. */
    var attempts: nat
    var slept: real
    var file: Option<seq<byte>>

    constructor (maxRetries: int, backoff: real)
      ensures this.maxRetries == (if maxRetries < 0 then 0 else maxRetries)
      ensures this.backoff == (if backoff < 0.0 then 0.0 else backoff)
      ensures file == None
    {
      this.maxRetries := if maxRetries < 0 then 0 else maxRetries;
      this.backoff := if backoff < 0.0 then 0.0 else backoff;
      attempts, slept, file := 0, 0.0, None;
    }

    method SleepRetry(attempt: nat, jitter: real)
      requires 0.0 <= jitter <= backoff || backoff <= 0.0
      requires SleptFor(slept, backoff, attempt)
      modifies `slept
      ensures SleptFor(slept, backoff, attempt + 1)
    {
      if backoff <= 0.0 { return; }
      slept := slept + Delay(backoff, attempt) + jitter;
    }

    /** Tries at most `maxRetries + 1` times, and always ends inside the loop. */
    method RequestBytes(expected: set<nat>, replies: nat -> Reply, jitter: nat -> real) returns (r: Answer)
      requires backoff >= 0.0 && forall i :: 0.0 <= jitter(i) <= backoff
      modifies `attempts, `slept
      ensures var k := LastAttempt(ReadWhole(replies), expected, None, 0, maxRetries);
              && attempts == k + 1 <= maxRetries + 1
              && r == Final(ReadWhole(replies)(k), expected, None, false)
              && SleptFor(slept, backoff, k)
    {
      attempts, slept := 0, 0.0;
      ghost var k := LastAttempt(ReadWhole(replies), expected, None, 0, maxRetries);
      for attempt := 0 to maxRetries + 1
        invariant attempts == attempt <= k
        invariant k == LastAttempt(ReadWhole(replies), expected, None, attempt, maxRetries)
        invariant SleptFor(slept, backoff, attempt)
      {
        attempts := attempts + 1;
        var reply := replies(attempt);
        if reply.NoConnection? || reply.breaksOff {
          if attempt < maxRetries {
            SleepRetry(attempt, jitter(attempt));
            continue;
          }
          return NetworkUnreachable;
        }
        if reply.status in expected { return Bytes(Flat(reply.chunks)); }
        if ShouldRetry(reply.status) && attempt < maxRetries {
          SleepRetry(attempt, jitter(attempt));
          continue;
        }
        return HttpError(reply.status);
      }
      assert false;
    }

    /** Download to the destination: a saved file is exactly the body, within the limit; no failure leaves a file. */
    method RequestToFile(expected: set<nat>, limit: Option<nat>, replies: nat -> Reply, jitter: nat -> real)
        returns (r: Answer)
      requires backoff >= 0.0 && forall i :: 0.0 <= jitter(i) <= backoff
      modifies `attempts, `slept, `file
      ensures var k := LastAttempt(replies, expected, limit, 0, maxRetries);
              && attempts == k + 1 <= maxRetries + 1
              && r == Final(replies(k), expected, limit, true)
              && SleptFor(slept, backoff, k)
              && (r.Saved? ==> file == Some(Flat(replies(k).chunks)))
      ensures if r.Saved? then file.Some? && |file.value| == r.length && (limit.Some? ==> r.length <= limit.value)
              else file == None
    {
      attempts, slept := 0, 0.0;
      ghost var k := LastAttempt(replies, expected, limit, 0, maxRetries);
      for attempt := 0 to maxRetries + 1
        invariant attempts == attempt <= k
        invariant k == LastAttempt(replies, expected, limit, attempt, maxRetries)
        invariant SleptFor(slept, backoff, attempt)
      {
        attempts := attempts + 1;
        var retry;
        retry, r := Download(expected, limit, replies(attempt));
        if !retry || attempt == maxRetries { return; }
        SleepRetry(attempt, jitter(attempt));
      }
      assert false;
    }

    /** One attempt: what it ends with if it is the last, and whether it may be tried again. */
    method Download(expected: set<nat>, limit: Option<nat>, reply: Reply) returns (retry: bool, r: Answer)
      modifies `file
      ensures retry == Retryable(reply, expected, limit) && r == Final(reply, expected, limit, true)
      ensures if r.Saved? then file == Some(Flat(reply.chunks)) && !Exceeds(reply.chunks, limit) else file == None
    {
      file := None;
      if reply.NoConnection? { return true, NetworkUnreachable; }
      if reply.status !in expected { return ShouldRetry(reply.status), HttpError(reply.status); }
      var total := WriteChunks(reply.chunks, limit);
      if total.None? {
        file := None;
        return false, TooLarge;
      }
      if reply.breaksOff {
        file := None;
        return true, NetworkUnreachable;
      }
      return false, Saved(total.value);
    }

    /** Write the chunks as they come; `None` when the limit is exceeded. */
    method WriteChunks(chunks: seq<seq<byte>>, limit: Option<nat>) returns (total: Option<nat>)
      modifies `file
      ensures total.None? <==> Exceeds(chunks, limit)
      ensures total.Some? ==> file == Some(Flat(chunks)) && total.value == |Flat(chunks)|
    {
      var written: seq<byte>, n := [], 0;
      file := Some([]);
      for i := 0 to |chunks|
        invariant n == |Flat(chunks[..i])| && file == Some(Flat(chunks[..i]))
        invariant !Exceeds(chunks[..i], limit)
      {
        FlatNext(chunks, i);
        n := n + |chunks[i]|;
        if limit.Some? && n > limit.value {
          FlatGrows(chunks, i + 1);
          return None;
        }
        file := Some(file.value + chunks[i]);
      }
      assert chunks[..|chunks|] == chunks;
      return Some(n);
    }
  }

  lemma FlatNext(chunks: seq<seq<byte>>, i: nat)
    requires i < |chunks|
    ensures Flat(chunks[..i + 1]) == Flat(chunks[..i]) + chunks[i]
  {
    assert chunks[..i + 1] == chunks[..i] + [chunks[i]];
    FlatConcat(chunks[..i], [chunks[i]]);
  }

  lemma FlatGrows(chunks: seq<seq<byte>>, i: nat)
    requires i <= |chunks|
    ensures |Flat(chunks[..i])| <= |Flat(chunks)|
  {
    assert chunks == chunks[..i] + chunks[i..];
    FlatConcat(chunks[..i], chunks[i..]);
  }
}
