/**
 * Project2/history.c: the last commands in a ring of 100 slots, refining the
 * unbounded log of all commands.
 */
module History {
  import opened Basics

  const MAX: nat := 100

  // ----- The log -----

  /** The number of the oldest command still kept. */
  function Oldest(log: seq<string>): nat {
    if |log| > MAX then |log| - MAX else 0
  }

  /**
   * Recall by number. One number too many passes the bounds test; it names
   * the slot the next command will take, which holds the oldest kept command
   * of a full ring and is empty before that.
   */
  function Recall(log: seq<string>, num: int): Option<string> {
    if Oldest(log) <= num < |log| then Some(log[num])
    else if num == |log| then Some(if |log| >= MAX then log[|log| - MAX] else "")
    else None
  }

  /** The latest kept command with the prefix, among those numbered below n. */
  function Latest(log: seq<string>, prefix: string, n: nat): Option<string>
    requires n <= |log|
  {
    if n <= Oldest(log) then None
    else if prefix <= log[n - 1] then Some(log[n - 1])
    else Latest(log, prefix, n - 1)
  }

  /** Command k is kept, has the prefix, and no later kept command below n has it. */
  ghost predicate IsLatest(log: seq<string>, prefix: string, n: nat, k: int)
    requires n <= |log|
  {
    && Oldest(log) <= k < n && prefix <= log[k]
    && forall j :: k < j < n ==> !(prefix <= log[j])
  }

  /** Nothing is found exactly when no kept command has the prefix; otherwise it is the latest that has. */
  lemma {:induction false} LatestExact(log: seq<string>, prefix: string, n: nat)
    requires n <= |log|
    ensures match Latest(log, prefix, n)
            case None => forall k :: Oldest(log) <= k < n ==> !(prefix <= log[k])
            case Some(found) => exists k :: IsLatest(log, prefix, n, k) && log[k] == found
  {
    if n > Oldest(log) {
      if prefix <= log[n - 1] {
        assert IsLatest(log, prefix, n, n - 1);
      } else {
        LatestExact(log, prefix, n - 1);
        if Latest(log, prefix, n - 1).Some? {
          var k :| IsLatest(log, prefix, n - 1, k) && log[k] == Latest(log, prefix, n - 1).value;
          assert IsLatest(log, prefix, n, k);
        }
      }
    }
  }

  /** The kept commands that are not empty, numbered below n, with their numbers. */
  function Listing(log: seq<string>, n: nat): seq<(int, string)>
    requires n <= |log|
  {
    if n <= Oldest(log) then []
    else if log[n - 1] == "" then Listing(log, n - 1)
    else Listing(log, n - 1) + [(n - 1, log[n - 1])]
  }

  /** The listing holds exactly the kept non-empty commands, each with its true number, in increasing order. */
  lemma {:induction false} ListingExact(log: seq<string>, n: nat, k: int, command: string)
    requires n <= |log|
    ensures (k, command) in Listing(log, n) <==> Oldest(log) <= k < n && log[k] == command != ""
    ensures forall i, j :: 0 <= i < j < |Listing(log, n)| ==> Listing(log, n)[i].0 < Listing(log, n)[j].0
  {
    if n > Oldest(log) {
      ListingExact(log, n - 1, k, command);
      ListingBelow(log, n - 1);
    }
  }

  lemma {:induction false} ListingBelow(log: seq<string>, n: nat)
    requires n <= |log|
    ensures forall i :: 0 <= i < |Listing(log, n)| ==> Listing(log, n)[i].0 < n
  {
    if n > Oldest(log) {
      ListingBelow(log, n - 1);
    }
  }

  // ----- The ring -----

  class Ring {
    const history: array<string>
    var minimum: nat
    var count: nat
    var tail: nat
    ghost var log: seq<string>

    ghost predicate Valid()
      reads this, history
    {
      && history.Length == MAX && count == |log| && minimum == Oldest(log)
      && tail == (if count == 0 then 0 else (count - 1) % MAX)
      && (forall k :: minimum <= k < count ==> history[k % MAX] == log[k])
      && (forall k :: count <= k < MAX ==> history[k] == "")
    }

    constructor ()
      ensures Valid() && log == [] && fresh(history)
    {
      history := new string[MAX](_ => "");
      minimum, count, tail, log := 0, 0, 0, [];
    }

    method AddHistory(command: string)
      requires Valid()
      modifies this, history
      ensures Valid() && log == old(log) + [command]
    {
      tail := count % MAX;
      history[count % MAX] := command;
      count := count + 1;
      log := log + [command];
      if count > MAX {
        minimum := minimum + 1;
      }
    }

    method GetCmd(num: int) returns (r: Option<string>)
      requires Valid()
      ensures r == Recall(log, num)
    {
      if num >= minimum && num <= count {
        assert num == count && count >= MAX ==> num % MAX == (count - MAX) % MAX;
        r := Some(history[num % MAX]);
      } else {
        r := None;
      }
    }

    method FindCmd(prefix: string) returns (r: Option<string>)
      requires Valid()
      ensures r == Latest(log, prefix, |log|)
    {
      var i := count - 1;
      while i >= minimum
        invariant minimum - 1 <= i < count
        invariant Latest(log, prefix, i + 1) == Latest(log, prefix, |log|)
      {
        var command := GetCmd(i);
        if command.Some? && prefix <= command.value {
          return command;
        }
        i := i - 1;
      }
      r := None;
    }

    /** The slots from the one after the tail on, all the way around. */
    method PrintHistory() returns (lines: seq<(int, string)>)
      requires Valid()
      ensures lines == Listing(log, |log|)
    {
      lines := [];
      var i, j := tail + 1, count;
      var maxLength := tail + MAX + 1;
      while i < maxLength
        invariant i <= maxLength && j - count == i - tail - 1
        invariant lines == Listing(log, NotNegative(j - MAX))
      {
        PrintStep(j - MAX, i);
        if history[i % MAX] != "" {
          lines := lines + [(j - MAX, history[i % MAX])];
        }
        i, j := i + 1, j + 1;
      }
    }

    /** The slot the walk of print_history looks at next holds command n, or nothing if n is negative. */
    lemma SlotAt(n: int, i: nat)
      requires Valid() && tail < i <= tail + MAX && n == count - MAX + (i - tail - 1)
      ensures if n < 0 then history[i % MAX] == "" else n < |log| && Oldest(log) <= n && history[i % MAX] == log[n]
    {
      if count == 0 {
      } else if n < 0 {
        assert i % MAX == n + MAX;
      } else {
        assert i % MAX == n % MAX;
      }
    }

    lemma PrintStep(n: int, i: nat)
      requires Valid() && tail < i <= tail + MAX && n == count - MAX + (i - tail - 1)
      ensures NotNegative(n + 1) <= |log|
      ensures Listing(log, NotNegative(n + 1)) ==
              Listing(log, NotNegative(n)) + if history[i % MAX] != "" then [(n, history[i % MAX])] else []
    {
      SlotAt(n, i);
    }
  }

  function NotNegative(n: int): nat { if n < 0 then 0 else n }
}
