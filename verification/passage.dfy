// What goes through a line, first in, first out, and in which way each item leaves it.
module Passage {

  datatype Out<T, W> = Out(item: T, way: W)

  // All of them leave in one way.
  function Mark<T, W>(items: seq<T>, way: W): (r: seq<Out<T, W>>)
    ensures |r| == |items| && forall k :: 0 <= k < |items| ==> r[k] == Out(items[k], way)
  {
    seq(|items|, k requires 0 <= k < |items| => Out(items[k], way))
  }

  function Items<T, W>(out: seq<Out<T, W>>): (r: seq<T>)
    ensures |r| == |out|
  {
    seq(|out|, k requires 0 <= k < |out| => out[k].item)
  }

  lemma ItemsAppend<T, W>(a: seq<Out<T, W>>, b: seq<Out<T, W>>)
    ensures Items(a + b) == Items(a) + Items(b)
  {
  }

  lemma MarkedItems<T, W>(items: seq<T>, way: W)
    ensures Items(Mark(items, way)) == items
  {
  }

  // Two stretches of a line one after the other.
  lemma Through<T>(first: seq<T>, in0: seq<T>, out0: seq<T>, q: seq<T>, in1: seq<T>, out1: seq<T>, last: seq<T>)
    requires first + in0 == out0 + q && q + in1 == out1 + last
    ensures first + (in0 + in1) == (out0 + out1) + last
  {
    calc {
      first + (in0 + in1);
      (first + in0) + in1;
      out0 + (q + in1);
      (out0 + out1) + last;
    }
  }

  // ---------- Those that left in one way ----------

  function LeftBy<T, W(==)>(out: seq<Out<T, W>>, way: W): (r: seq<T>)
    ensures |r| <= |out|
  {
    if out == [] then []
    else
      var last := out[|out| - 1];
      LeftBy(out[..|out| - 1], way) + (if last.way == way then [last.item] else [])
  }

  ghost predicate AllLeftBy<T, W>(out: seq<Out<T, W>>, way: W) {
    forall k :: 0 <= k < |out| ==> out[k].way == way
  }

  lemma AllLeftByAppend<T, W>(a: seq<Out<T, W>>, b: seq<Out<T, W>>, way: W)
    ensures AllLeftBy(a + b, way) <==> AllLeftBy(a, way) && AllLeftBy(b, way)
  {
    assert forall k :: 0 <= k < |a| ==> (a + b)[k] == a[k];
    assert forall k :: 0 <= k < |b| ==> (a + b)[|a| + k] == b[k];
  }

  lemma {:induction false} LeftByAppend<T, W>(a: seq<Out<T, W>>, b: seq<Out<T, W>>, way: W)
    ensures LeftBy(a + b, way) == LeftBy(a, way) + LeftBy(b, way)
    decreases |b|
  {
    if b == [] {
      assert a + b == a;
    } else {
      assert (a + b)[..|a + b| - 1] == a + b[..|b| - 1];
      LeftByAppend(a, b[..|b| - 1], way);
    }
  }

  lemma {:induction false} NoneLeftBy<T, W>(items: seq<T>, way: W, other: W)
    requires way != other
    ensures LeftBy(Mark(items, other), way) == []
  {
    if items != [] {
      var init := items[..|items| - 1];
      NoneLeftBy(init, way, other);
      assert Mark(items, other)[..|items| - 1] == Mark(init, other);
    }
  }

  // They are as many as there are, or the same in order, exactly if all left in that way.
  lemma {:induction false} AllLeftByIff<T, W>(out: seq<Out<T, W>>, way: W)
    ensures AllLeftBy(out, way) <==> LeftBy(out, way) == Items(out)
    ensures AllLeftBy(out, way) <==> |LeftBy(out, way)| == |out|
  {
    if out != [] {
      var init, last := out[..|out| - 1], [out[|out| - 1]];
      AllLeftByIff(init, way);
      assert out == init + last;
      AllLeftByAppend(init, last, way);
      ItemsAppend(init, last);
    }
  }
}
