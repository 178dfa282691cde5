/** `SizedSummary` of utils.rs: a collector that keeps at most `limit` summary
    strings, asks its producer for a string only when there is room, and
    remembers (`is_full`) that at least one entry was dropped. */
module SummaryCollector {
  import Strings

  /** The collector state. `capacity` is the capacity of the entries vector,
      which `Vec::with_capacity(limit)` makes equal to `limit`; the vector is
      never pushed past it, so it never reallocates. */
  datatype Summary = Summary(isFull: bool, data: seq<string>, capacity: nat)

  /** The state invariant: never more entries than the capacity. */
  predicate Valid(s: Summary)
  {
    |s.data| <= s.capacity
  }

  /** `SizedSummary::new(limit)`: no entries, not full. */
  function New(limit: nat): (s: Summary)
    ensures Valid(s) && Len(s) == 0 && !s.isFull
    ensures s.capacity == limit
  {
    Summary(false, [], limit)
  }

  /** `len()`: the number of committed entries, never above the capacity. */
  function Len(s: Summary): (n: nat)
    ensures n == |s.data|
    ensures Valid(s) ==> n <= s.capacity
  {
    |s.data|
  }

  /** One step of `append`: the next state and whether the producer closure ran. */
  datatype Step = Step(next: Summary, produced: bool)

  /** `append(generate_msg)`. The producer is a zero-argument function; the
      `produced` flag records whether it was invoked. */
  function Append(s: Summary, generate: () -> string): (st: Step)
    // the producer runs exactly when the collector is open and has room
    ensures st.produced <==> !s.isFull && |s.data| < s.capacity
    // a produced entry goes at the end; nothing else about the entries changes
    ensures st.produced ==> st.next.data == s.data + [generate()]
    ensures !st.produced ==> st.next.data == s.data
    // is_full is sticky and is set by the first append that finds no room
    ensures st.next.isFull <==> s.isFull || |s.data| >= s.capacity
    ensures s.isFull ==> st.next == s
    ensures st.next.capacity == s.capacity
    ensures Valid(s) ==> Valid(st.next)
  {
    if !s.isFull then
      if |s.data| >= s.capacity then
        Step(s.(isFull := true), false)
      else
        Step(s.(data := s.data + [generate()]), true)
    else
      Step(s, false)
  }

  /** Result of a run of appends: the final state and how many producers ran. */
  datatype Run = Run(final: Summary, calls: nat)

  /** Appends the producers of `gens` one after the other, in order. */
  function AppendAll(s: Summary, gens: seq<() -> string>): (r: Run)
    decreases |gens|
  {
    if |gens| == 0 then Run(s, 0)
    else
      var st := Append(s, gens[0]);
      var rest := AppendAll(st.next, gens[1..]);
      Run(rest.final, rest.calls + (if st.produced then 1 else 0))
  }

  /** The strings the producers of `gens` yield, in order. */
  function Produce(gens: seq<() -> string>): (out: seq<string>)
    ensures |out| == |gens|
    ensures forall i :: 0 <= i < |gens| ==> out[i] == gens[i]()
  {
    if |gens| == 0 then [] else [gens[0]()] + Produce(gens[1..])
  }

  function Min(a: nat, b: nat): nat
  {
    if a <= b then a else b
  }

  /** Laziness: when `append` does not run the producer, which producer was
      passed makes no difference to the outcome. */
  lemma AppendIgnoresUnusedProducer(s: Summary, g1: () -> string, g2: () -> string)
    ensures !Append(s, g1).produced ==> Append(s, g1) == Append(s, g2)
  {
  }

  /** Once full, any run of appends changes nothing and runs no producer. */
  lemma {:induction false} AppendAllWhenFull(s: Summary, gens: seq<() -> string>)
    requires s.isFull
    ensures AppendAll(s, gens) == Run(s, 0)
    decreases |gens|
  {
    if |gens| > 0 {
      AppendAllWhenFull(s, gens[1..]);
    }
  }

  /** Free slots of a collector. */
  function Room(s: Summary): nat
  {
    if |s.data| <= s.capacity then s.capacity - |s.data| else 0
  }

  /** A run of `k` appends on an open collector with `room` free slots commits
      the first `min(k, room)` producers' strings at the end, runs exactly
      those producers, and leaves the collector full exactly when `k > room`. */
  lemma {:induction false} AppendAllOpen(s: Summary, gens: seq<() -> string>)
    requires Valid(s) && !s.isFull
    ensures AppendAll(s, gens).final.data == s.data + Produce(gens[..Min(|gens|, Room(s))])
    ensures AppendAll(s, gens).final.isFull == (|gens| > Room(s))
    ensures AppendAll(s, gens).calls == Min(|gens|, Room(s))
    decreases |gens|
  {
    if |gens| == 0 {
      assert gens[..0] == [];
    } else if Room(s) == 0 {
      AppendAllOpenNoRoom(s, gens);
    } else {
      var st := Append(s, gens[0]);
      var n := Min(|gens|, Room(s));
      AppendAllOpen(st.next, gens[1..]);
      assert Room(st.next) == Room(s) - 1;
      assert Min(|gens[1..]|, Room(st.next)) == n - 1;
      ProduceFirst(gens, n);
    }
  }

  /** An open collector without room only becomes full. */
  lemma AppendAllOpenNoRoom(s: Summary, gens: seq<() -> string>)
    requires Valid(s) && !s.isFull && Room(s) == 0 && |gens| > 0
    ensures AppendAll(s, gens) == Run(s.(isFull := true), 0)
  {
    var st := Append(s, gens[0]);
    AppendAllWhenFull(st.next, gens[1..]);
  }

  /** Producing a non-empty prefix yields its head's string, then the rest. */
  lemma ProduceFirst(gens: seq<() -> string>, n: nat)
    requires 0 < n <= |gens|
    ensures Produce(gens[..n]) == [gens[0]()] + Produce(gens[1..][..n - 1])
  {
    assert gens[..n][1..] == gens[1..][..n - 1];
  }

  /** After `k` appends to `new(c)`: `len() == min(k, c)`, exactly `min(k, c)`
      producers ran (the first ones), and `is_full == (k > c)`. */
  lemma {:induction false} AppendsToNew(c: nat, gens: seq<() -> string>)
    ensures Len(AppendAll(New(c), gens).final) == Min(|gens|, c)
    ensures AppendAll(New(c), gens).final.data == Produce(gens[..Min(|gens|, c)])
    ensures AppendAll(New(c), gens).final.isFull == (|gens| > c)
    ensures AppendAll(New(c), gens).calls == Min(|gens|, c)
  {
    AppendAllOpen(New(c), gens);
    assert [] + Produce(gens[..Min(|gens|, c)]) == Produce(gens[..Min(|gens|, c)]);
  }

  /** The tail `", ..."` that marks a full multi-entry summary. */
  function Ellipsis(isFull: bool): string
  {
    if isFull then ", ..." else ""
  }

  /** `Display::fmt`: `"Empty"`, the single entry verbatim (no brackets and no
      ellipsis even when full), or the entries in brackets separated by `", "`
      with `", ..."` before the closing bracket when full. */
  function Render(s: Summary): (r: string)
    ensures |s.data| == 0 ==> r == "Empty"
    ensures |s.data| == 1 ==> r == s.data[0]
    ensures |s.data| > 1 ==> |r| >= 2 && r[0] == '[' && r[|r| - 1] == ']'
    ensures |s.data| > 1 && s.isFull ==> Strings.EndsWith(r, ", ...]")
    ensures |s.data| > 1 && !s.isFull ==> Strings.EndsWith(r, s.data[|s.data| - 1] + "]")
  {
    if Len(s) > 1 then
      var body := Strings.Join(s.data, ", ") + Ellipsis(s.isFull);
      Strings.JoinEndsWithLast(s.data, ", ");
      "[" + body + "]"
    else if |s.data| == 0 then
      "Empty"
    else
      s.data[0]
  }

  /** How one `append` changes the rendering of an open collector: a produced
      entry is added before the closing bracket (opening the brackets when it is
      the second entry); the append that finds no room adds `", ..."` before the
      closing bracket when there are several entries and changes nothing when
      there are fewer. */
  lemma RenderAfterAppend(s: Summary, generate: () -> string)
    requires Valid(s) && !s.isFull
    ensures var st := Append(s, generate);
            var r := Render(s);
            var r' := Render(st.next);
            && (st.produced && |s.data| == 0 ==> r' == generate())
            && (st.produced && |s.data| == 1 ==> r' == "[" + r + ", " + generate() + "]")
            && (st.produced && |s.data| > 1 ==> r' == r[..|r| - 1] + ", " + generate() + "]")
            && (!st.produced && |s.data| > 1 ==> r' == r[..|r| - 1] + ", ...]")
            && (!st.produced && |s.data| <= 1 ==> r' == r)
  {
    var st := Append(s, generate);
    if st.produced {
      assert st.next == s.(data := s.data + [generate()]);
      if |s.data| == 1 {
        RenderPushSecond(s, generate());
      } else if |s.data| > 1 {
        RenderPushMore(s, generate());
      }
    } else if |s.data| > 1 {
      assert st.next == s.(isFull := true);
      RenderClose(s);
    }
  }

  /** A second entry opens the brackets around the first. */
  lemma RenderPushSecond(s: Summary, x: string)
    requires |s.data| == 1 && !s.isFull
    ensures Render(s.(data := s.data + [x])) == "[" + Render(s) + ", " + x + "]"
  {
    var s' := s.(data := s.data + [x]);
    assert s'.data == [s.data[0], x];
    assert Strings.Join(s'.data, ", ") == s.data[0] + ", " + x by {
      assert s'.data[1..] == [x];
    }
    RenderSeveral(s');
  }

  /** A further entry goes before the closing bracket. */
  lemma RenderPushMore(s: Summary, x: string)
    requires |s.data| > 1 && !s.isFull
    ensures var r := Render(s);
            Render(s.(data := s.data + [x])) == r[..|r| - 1] + ", " + x + "]"
  {
    var s' := s.(data := s.data + [x]);
    var j := Strings.Join(s.data, ", ");
    var r := Render(s);
    RenderSeveral(s);
    RenderSeveral(s');
    assert r == "[" + j + "]";
    assert r[..|r| - 1] == "[" + j;
    Strings.JoinSnoc(s.data, x, ", ");
    assert Render(s') == "[" + (j + ", " + x) + "]";
  }

  /** Becoming full adds `", ..."` before the closing bracket of several entries. */
  lemma RenderClose(s: Summary)
    requires |s.data| > 1 && !s.isFull
    ensures var r := Render(s);
            Render(s.(isFull := true)) == r[..|r| - 1] + ", ...]"
  {
    var j := Strings.Join(s.data, ", ");
    var r := Render(s);
    RenderSeveral(s);
    RenderSeveral(s.(isFull := true));
    assert r == "[" + j + "]";
    assert r[..|r| - 1] == "[" + j;
  }

  /** Rendering is frozen once the collector is full. */
  lemma {:induction false} RenderFrozenWhenFull(s: Summary, gens: seq<() -> string>)
    requires s.isFull
    ensures Render(AppendAll(s, gens).final) == Render(s)
  {
    AppendAllWhenFull(s, gens);
  }

  /** With several entries, the rendering is every entry in order, separated
      by `", "`, inside brackets, with `", ..."` before the closing bracket
      when the collector is full. */
  lemma RenderSeveral(s: Summary)
    requires |s.data| > 1
    ensures Render(s) == "[" + Strings.Join(s.data, ", ") + Ellipsis(s.isFull) + "]"
  {
  }

  /** End to end: `k` appends to `new(c)` render as `"Empty"` when nothing was
      committed, as the first producer's string alone when one entry was
      committed, and otherwise as the first `min(k, c)` producers' strings
      joined by `", "` in brackets, with `", ..."` exactly when `k > c`. */
  lemma {:induction false} RenderAfterAppends(c: nat, gens: seq<() -> string>)
    ensures Min(|gens|, c) == 0 ==> Render(AppendAll(New(c), gens).final) == "Empty"
    ensures Min(|gens|, c) == 1 ==> Render(AppendAll(New(c), gens).final) == gens[0]()
    ensures Min(|gens|, c) > 1 ==>
              Render(AppendAll(New(c), gens).final)
                == "[" + Strings.Join(Produce(gens[..Min(|gens|, c)]), ", ")
                   + (if |gens| > c then ", ..." else "") + "]"
  {
    AppendsToNew(c, gens);
    var n := Min(|gens|, c);
    if n > 1 {
      RenderSeveral(AppendAll(New(c), gens).final);
    } else if n == 1 {
      assert gens[..1][0] == gens[0];
    }
  }

  /** Small examples of renderings. */
  lemma RenderExamples()
    ensures Render(New(3)) == "Empty"
    ensures Render(Summary(false, ["A"], 3)) == "A"
    ensures Render(Summary(true, ["A"], 1)) == "A"
    ensures Render(Summary(false, ["A", "B"], 3)) == "[A, B]"
    ensures Render(Summary(true, ["A", "B"], 2)) == "[A, B, ...]"
  {
  }
}
