/** Renumbering of imported document revisions. */
module Revisions {
  import opened FreeNumbers
  import opened HistoryTypes
  import opened Optional

  /** What the source revisions with these numbers, none of them in the target yet, end up with. */
  function Renumbered(numbers: seq<int>, used: set<int>, next: int): seq<int> {
    if |numbers| == 0 then []
    else if numbers[0] in used then
      var n := FirstFree(used, next);
      [n] + Renumbered(numbers[1..], used + {n}, n + 1)
    else [numbers[0]] + Renumbered(numbers[1..], used + {numbers[0]}, next)
  }

  predicate Distinct<T(==)>(s: seq<T>) {
    forall i, j :: 0 <= i < j < |s| ==> s[i] != s[j]
  }

  ghost predicate Increasing(s: seq<int>) {
    forall i, j :: 0 <= i < j < |s| ==> s[i] < s[j]
  }

  function NumbersOf(rows: seq<Revision>): (ns: seq<int>)
    ensures |ns| == |rows| && forall i :: 0 <= i < |rows| ==> ns[i] == rows[i].number
  {
    seq(|rows|, i requires 0 <= i < |rows| => rows[i].number)
  }

  function Fresh(rows: seq<Revision>, existing: set<Id>): seq<Revision> {
    if |rows| == 0 then []
    else Fresh(rows[..|rows| - 1], existing) +
         if rows[|rows| - 1].id in existing then [] else [rows[|rows| - 1]]
  }

  datatype PlannedRevision = PlannedRevision(source: Revision, number: int, createdByAgentId: Option<Id>)

  // ----- properties of the numbers -----

  lemma {:induction false} NumbersDistinct(numbers: seq<int>, used: set<int>, next: int)
    ensures |Renumbered(numbers, used, next)| == |numbers|
    ensures Distinct(Renumbered(numbers, used, next))
    ensures forall n :: n in Renumbered(numbers, used, next) ==> n !in used
  {
    if |numbers| > 0 {
      var n := if numbers[0] in used then FirstFree(used, next) else numbers[0];
      var after := if numbers[0] in used then n + 1 else next;
      NumbersDistinct(numbers[1..], used + {n}, after);
      var rest := Renumbered(numbers[1..], used + {n}, after);
      assert Renumbered(numbers, used, next) == [n] + rest;
      forall j | 0 <= j < |rest| ensures rest[j] != n {
        assert rest[j] in rest;
      }
    }
  }

  /** With distinct source numbers, none drops below its source number. */
  lemma {:induction false} NeverLower(numbers: seq<int>, used: set<int>, next: int)
    requires Distinct(numbers)
    requires forall n :: n in numbers && n in used ==> n < next
    ensures |Renumbered(numbers, used, next)| == |numbers|
    ensures forall i :: 0 <= i < |numbers| ==> Renumbered(numbers, used, next)[i] >= numbers[i]
  {
    if |numbers| > 0 {
      var n := if numbers[0] in used then FirstFree(used, next) else numbers[0];
      var after := if numbers[0] in used then n + 1 else next;
      forall x | x in numbers[1..] && x in used + {n} ensures x < after {
        assert x != numbers[0];
      }
      assert numbers[0] in numbers;
      NeverLower(numbers[1..], used + {n}, after);
      var rest := Renumbered(numbers[1..], used + {n}, after);
      forall i | 0 <= i < |numbers| ensures ([n] + rest)[i] >= numbers[i] {
        if i > 0 {
          assert rest[i - 1] >= numbers[1..][i - 1];
        }
      }
    }
  }

  /** A revision keeps its number exactly if neither the target nor an earlier one has it; otherwise it
      gets one from `next` on. */
  lemma {:induction false} KeptIffFree(numbers: seq<int>, used: set<int>, next: int, i: nat)
    requires i < |numbers|
    ensures var r := Renumbered(numbers, used, next);
      && |r| == |numbers|
      && (r[i] == numbers[i] <==> numbers[i] !in used && numbers[i] !in r[..i])
      && (r[i] != numbers[i] ==> r[i] >= next)
  {
    var n := if numbers[0] in used then FirstFree(used, next) else numbers[0];
    var after := if numbers[0] in used then n + 1 else next;
    var rest := Renumbered(numbers[1..], used + {n}, after);
    NumbersDistinct(numbers[1..], used + {n}, after);
    assert Renumbered(numbers, used, next) == [n] + rest;
    if i > 0 {
      KeptIffFree(numbers[1..], used + {n}, after, i - 1);
      assert ([n] + rest)[..i] == [n] + rest[..i - 1];
    }
  }

  lemma {:induction false} UnusedAreKept(numbers: seq<int>, used: set<int>, next: int)
    requires Distinct(numbers) && forall n :: n in numbers ==> n !in used
    ensures Renumbered(numbers, used, next) == numbers
  {
    if |numbers| > 0 {
      assert numbers[0] in numbers;
      UnusedAreKept(numbers[1..], used + {numbers[0]}, next);
      assert numbers == [numbers[0]] + numbers[1..];
    }
  }

  /** Nothing is free between 1 and `next`, and what is taken below 1 lies below what is to come. */
  ghost predicate Packed(numbers: seq<int>, used: set<int>, next: int, last: int) {
    && (forall k :: 1 <= k < next ==> k in used)
    && (forall k :: k in used ==> k < next && (k < 1 ==> forall n :: n in numbers ==> k < n))
    && last < next
    && forall n :: n in numbers ==> if last < 1 then last < n else 1 < n
  }

  lemma Prepended(x: int, y: int, s: seq<int>)
    requires x < y && Increasing([y] + s)
    ensures Increasing([x] + ([y] + s))
  {
    var low, high := [y] + s, [x] + ([y] + s);
    forall i, j | 0 <= i < j < |high| ensures high[i] < high[j] {
      assert high[j] == low[j - 1];
      assert i > 0 ==> high[i] == low[i - 1];
      assert low[0] <= low[j - 1];
    }
  }

  /** What taking `n` for the first number leaves for the rest. */
  lemma PackedOn(numbers: seq<int>, used: set<int>, next: int, last: int)
    requires next >= 1 && Increasing(numbers) && Packed(numbers, used, next, last) && |numbers| > 0
    ensures Increasing(numbers[1..])
    ensures numbers[0] in used ==>
      FirstFree(used, next) == next && last < next && Packed(numbers[1..], used + {next}, next + 1, next)
    ensures numbers[0] !in used && numbers[0] < 1 ==>
      last < numbers[0] && Packed(numbers[1..], used + {numbers[0]}, next, numbers[0])
    ensures numbers[0] !in used && numbers[0] >= 1 ==>
      last < numbers[0] && forall n :: n in numbers ==> n !in used
  {
    assert numbers[0] in numbers;
    forall n | n in numbers[1..] ensures n in numbers && numbers[0] < n {
    }
  }

  lemma Preceded(last: int, numbers: seq<int>)
    requires Increasing(numbers) && |numbers| > 0 && last < numbers[0]
    ensures Increasing([last] + numbers) && Distinct(numbers)
  {
    Prepended(last, numbers[0], numbers[1..]);
    assert numbers == [numbers[0]] + numbers[1..];
  }

  lemma {:induction false} OrderKeptFrom(numbers: seq<int>, used: set<int>, next: int, last: int)
    requires next >= 1 && Increasing(numbers) && Packed(numbers, used, next, last)
    ensures Increasing([last] + Renumbered(numbers, used, next))
  {
    hide Packed, Increasing, Distinct;
    if |numbers| == 0 {
      OneIncreases(last);
    } else {
      var r, rest := numbers[0], numbers[1..];
      PackedOn(numbers, used, next, last);
      if r in used {
        OrderKeptFrom(rest, used + {next}, next + 1, next);
        Prepended(last, next, Renumbered(rest, used + {next}, next + 1));
      } else if r < 1 {
        OrderKeptFrom(rest, used + {r}, next, r);
        Prepended(last, r, Renumbered(rest, used + {r}, next));
      } else {
        Preceded(last, numbers);
        UnusedAreKept(numbers, used, next);
      }
    }
  }

  lemma OneIncreases(last: int)
    ensures forall used, next :: Increasing([last] + Renumbered([], used, next))
  {
  }

  /** If the target's numbers are exactly 1..m, the source's order is kept. */
  lemma OrderKept(numbers: seq<int>, used: set<int>, m: nat)
    requires Increasing(numbers) && forall k :: k in used <==> 1 <= k <= m
    ensures Increasing(Renumbered(numbers, used, m + 1))
  {
    if |numbers| > 0 {
      var low := if numbers[0] < 1 then numbers[0] - 1 else 0;
      OrderKeptFrom(numbers, used, m + 1, low);
      var whole := [low] + Renumbered(numbers, used, m + 1);
      assert whole[1..] == Renumbered(numbers, used, m + 1);
    }
  }
}
