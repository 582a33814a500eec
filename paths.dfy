/** Relation paths: a dotted string and the segments PHP's explode('.', ...) gives. */
module Paths {

  /** explode('.', path): the maximal dot-free pieces, in order, empty pieces kept. */
  function Split(path: string): (segments: seq<string>)
    ensures |segments| >= 1
    ensures forall i :: 0 <= i < |segments| ==> '.' !in segments[i]
    ensures Join(segments) == path
    ensures '.' in path <==> |segments| >= 2
    ensures '.' !in path ==> segments == [path]
    decreases |path|
  {
    if path == [] then [""]
    else
      var rest := Split(path[1..]);
      assert path == [path[0]] + path[1..];
      if path[0] == '.' then
        [""] + rest
      else
        var head := [path[0]] + rest[0];
        assert |rest| > 1 ==> Join(rest) == rest[0] + "." + Join(rest[1..]);
        assert |rest| > 1 ==> head + "." + Join(rest[1..]) == [path[0]] + (rest[0] + "." + Join(rest[1..]));
        [head] + rest[1..]
  }

  /** implode('.', segments): the inverse of Split. */
  function Join(segments: seq<string>): string
    requires |segments| >= 1
    decreases |segments|
  {
    if |segments| == 1 then segments[0] else segments[0] + "." + Join(segments[1..])
  }

  /** A dot-free head splits off as the first segment. */
  lemma {:induction false} SplitCons(head: string, tail: string)
    requires '.' !in head
    ensures Split(head + "." + tail) == [head] + Split(tail)
    decreases |head|
  {
    var path := head + "." + tail;
    if head == [] {
      assert path == "." + tail;
      assert path[1..] == tail;
    } else {
      assert path[1..] == head[1..] + "." + tail;
      SplitCons(head[1..], tail);
      assert [path[0]] + head[1..] == head;
    }
  }

  /** Splitting undoes joining, for dot-free segments. */
  lemma {:induction false} SplitJoin(segments: seq<string>)
    requires |segments| >= 1
    requires forall i :: 0 <= i < |segments| ==> '.' !in segments[i]
    ensures Split(Join(segments)) == segments
    decreases |segments|
  {
    if |segments| > 1 {
      SplitCons(segments[0], Join(segments[1..]));
      SplitJoin(segments[1..]);
    }
  }
}
