/**
 * Moving line numbers from a generated file into the document it was
 * extracted from. `shiftFactory` turns the block's first document line into
 * the adder `x => x + sourceLine - 1`; the three updaters apply it to the
 * line fields of a location, a function entry and a branch entry and leave
 * every other field as it is (updeep's partial update).
 */
module LineShift {
  import opened JsObjects
  import opened Coverage

  /** The adder for a block whose code starts on document line `sourceLine`. */
  function Adder(sourceLine: int): (add: int -> int)
    ensures add(1) == sourceLine
    ensures forall x, y :: x < y ==> add(x) < add(y)
    ensures forall x :: add(x) - x == sourceLine - 1
  {
    x => x + sourceLine - 1
  }

  /** The adder's inverse: document line back to generated line. */
  function Remover(sourceLine: int): (sub: int -> int)
    ensures forall x :: sub(Adder(sourceLine)(x)) == x
  {
    x => x - sourceLine + 1
  }

  /** `u({start: {line: add}, end: {line: add}})`: applied to a location. */
  function AddLoc(loc: Range, add: int -> int): (r: Range)
    ensures r.start == loc.start.(line := add(loc.start.line))
    ensures r.end == loc.end.(line := add(loc.end.line))
  {
    Range(Position(add(loc.start.line), loc.start.column), Position(add(loc.end.line), loc.end.column))
  }

  /** `u({line: add, loc: addLoc(add)})`: applied to an `fnMap` entry. */
  function AddFnLines(fn: FnMeta, add: int -> int): (r: FnMeta)
    ensures r.name == fn.name && r.decl == fn.decl
    ensures r.line == add(fn.line)
    ensures r.loc == AddLoc(fn.loc, add)
  {
    fn.(line := add(fn.line), loc := AddLoc(fn.loc, add))
  }

  /** `u({line: add, locations: u.map(addLoc(add))})`: applied to a `branchMap` entry. */
  function AddBranchLines(br: BranchMeta, add: int -> int): (r: BranchMeta)
    ensures r.kind == br.kind && r.loc == br.loc
    ensures r.line == add(br.line)
    ensures |r.locations| == |br.locations|
    ensures forall i :: 0 <= i < |br.locations| ==> r.locations[i] == AddLoc(br.locations[i], add)
  {
    br.(line := add(br.line),
        locations := seq(|br.locations|, i requires 0 <= i < |br.locations| => AddLoc(br.locations[i], add)))
  }

  /** Shifting a location and shifting it back gives the location again. */
  lemma AddLocRoundTrip(loc: Range, sourceLine: int)
    ensures AddLoc(AddLoc(loc, Adder(sourceLine)), Remover(sourceLine)) == loc
  {
  }

  lemma AddFnLinesRoundTrip(fn: FnMeta, sourceLine: int)
    ensures AddFnLines(AddFnLines(fn, Adder(sourceLine)), Remover(sourceLine)) == fn
  {
    AddLocRoundTrip(fn.loc, sourceLine);
  }

  lemma AddBranchLinesRoundTrip(br: BranchMeta, sourceLine: int)
    ensures AddBranchLines(AddBranchLines(br, Adder(sourceLine)), Remover(sourceLine)) == br
  {
    var r := AddBranchLines(AddBranchLines(br, Adder(sourceLine)), Remover(sourceLine));
    forall i | 0 <= i < |br.locations| ensures r.locations[i] == br.locations[i] {
      AddLocRoundTrip(br.locations[i], sourceLine);
    }
  }
}
