/** The annotation tool: ask for a box on every frame of the video named by
    the first argument and save the boxes next to it, in `<video>.txt`. */
module SelectMain {
  import opened Boxes
  import opened Options
  import opened BoxCodec
  import opened Tracking
  import opened Evaluator
  import opened GroundTruth

  /** The output file name: the input path with ".txt" appended. */
  function OutputName(path: string): (name: string)
    ensures |name| == |path| + 4 && name[..|path|] == path && name[|path|..] == ".txt"
  {
    path + ".txt"
  }

  /** Different videos get different output files. */
  lemma OutputNameInjective(a: string, b: string)
    requires OutputName(a) == OutputName(b)
    ensures a == b
  {
    assert a == OutputName(a)[..|a|];
    assert b == OutputName(b)[..|b|];
  }

  /** `main` of the annotation tool: the name and contents of the file written, and the boxes
      selected.  When every selected field is below one million in
      magnitude, reading that file back gives the selected boxes, whatever
      the sscanf variables hold before the first line (`init`). */
  method Annotate(args: seq<string>, video: seq<Option<Frame>>, nFrames: nat, select: nat -> Box, init: Fields)
    returns (name: string, text: string, boundaries: seq<Box>)
    requires |args| >= 2
    ensures name == OutputName(args[1])
    ensures |boundaries| == FramesRead(video, nFrames)
    ensures forall k :: 0 <= k < |boundaries| ==> boundaries[k] == select(k)
    ensures text == SaveText(boundaries)
    ensures (forall k :: 0 <= k < |boundaries| ==> Printable(boundaries[k]))
        ==> ReadAll(Lines(text), init) == boundaries
  {
    name := OutputName(args[1]);
    boundaries := CutRect(video, nFrames, select);
    text := SaveBox(boundaries);
    if forall k :: 0 <= k < |boundaries| ==> Printable(boundaries[k]) {
      ReadSaved(boundaries, init);
    }
  }
}
