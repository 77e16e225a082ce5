/** The path bookkeeping, the step protocol and the string read of the HDF5 reader.
    The HDF5 file itself is an abstract map from absolute dataset paths to stored strings. */
module Hdf5Reader {
  import opened Errors
  import opened Text

  /** The absolute path of the current group: "/" followed by the group names joined by "/". */
  function AbsolutePath(names: seq<string>): string
  {
    "/" + Join(names, "/")
  }

  /** Splitting a text at every '/' character; a text without '/' is one piece. */
  function SplitAtSlash(s: string): (pieces: seq<string>)
    ensures |pieces| >= 1
    decreases |s|
  {
    if |s| == 0 then [""]
    else if s[0] == '/' then [""] + SplitAtSlash(s[1..])
    else
      var rest := SplitAtSlash(s[1..]);
      [[s[0]] + rest[0]] + rest[1..]
  }

  lemma {:induction false} SplitNoSlash(s: string)
    requires '/' !in s
    ensures SplitAtSlash(s) == [s]
    decreases |s|
  {
    if |s| > 0 {
      assert '/' !in s[1..] by {
        forall k | 0 <= k < |s[1..]| ensures s[1..][k] != '/' { assert s[1..][k] == s[k + 1]; }
      }
      SplitNoSlash(s[1..]);
      assert [s[0]] + s[1..] == s;
    }
  }

  lemma {:induction false} SplitAfterSlash(a: string, b: string)
    requires '/' !in a
    ensures SplitAtSlash(a + "/" + b) == [a] + SplitAtSlash(b)
    decreases |a|
  {
    if |a| == 0 {
      assert a + "/" + b == ['/'] + b;
      assert (a + "/" + b)[1..] == b;
    } else {
      assert '/' !in a[1..] by {
        forall k | 0 <= k < |a[1..]| ensures a[1..][k] != '/' { assert a[1..][k] == a[k + 1]; }
      }
      assert (a + "/" + b)[1..] == a[1..] + "/" + b;
      assert (a + "/" + b)[0] == a[0];
      SplitAfterSlash(a[1..], b);
      assert [a[0]] + a[1..] == a;
    }
  }

  /** When no group name contains '/', the absolute path determines the list of group names:
      splitting what follows the leading "/" gives the names back. */
  lemma {:induction false} AbsolutePathRoundTrip(names: seq<string>)
    requires |names| > 0
    requires forall k :: 0 <= k < |names| ==> '/' !in names[k]
    ensures AbsolutePath(names)[0] == '/'
    ensures SplitAtSlash(AbsolutePath(names)[1..]) == names
    decreases |names|
  {
    assert AbsolutePath(names)[1..] == Join(names, "/");
    if |names| == 1 {
      SplitNoSlash(names[0]);
    } else {
      AbsolutePathRoundTrip(names[1..]);
      assert AbsolutePath(names[1..])[1..] == Join(names[1..], "/");
      SplitAfterSlash(names[0], Join(names[1..], "/"));
      assert [names[0]] + names[1..] == names;
    }
  }

  /** A stored string consisting of a single NUL character reads as the empty string. */
  function NulToEmpty(stored: string): (value: string)
    ensures value == "" <==> stored == "" || stored == [0 as char]
    ensures value != stored ==> stored == [0 as char]
  {
    if stored == [0 as char] then "" else stored
  }

  /** The step bookkeeping of the reader: whether a step is open and how many steps ended. */
  datatype StepState = StepState(inStep: bool, step: int)

  datatype StepOp = BeginStep | EndStep

  /** One call of begin_step or end_step; an exception leaves the state as it was. */
  function ApplyStep(st: StepState, op: StepOp): Result<StepState>
  {
    match op
    case BeginStep =>
      if st.inStep then Failure(RuntimeError, "HDF5Writer::begin_step() called while already in step!")
      else Success(st.(inStep := true))
    case EndStep =>
      if !st.inStep then Failure(RuntimeError, "HDF5Writer::end_step() called while not in step!")
      else Success(st.(step := st.step + 1))
  }

  /** A sequence of calls, stopping at the first exception. */
  function RunSteps(st: StepState, ops: seq<StepOp>): Result<StepState>
    decreases |ops|
  {
    if |ops| == 0 then Success(st)
    else match ApplyStep(st, ops[0])
      case Failure(k, m) => Failure(k, m)
      case Success(next) => RunSteps(next, ops[1..])
  }

  function CountOp(ops: seq<StepOp>, op: StepOp): nat
    decreases |ops|
  {
    if |ops| == 0 then 0 else (if ops[0] == op then 1 else 0) + CountOp(ops[1..], op)
  }

  /** A run without exception ends with `step` raised by exactly the number of end_step calls,
      leaves a step open once one was opened (end_step never closes it), and so contains at
      most one begin_step, and none at all when a step was already open. */
  lemma {:induction false} RunStepsBookkeeping(st: StepState, ops: seq<StepOp>)
    requires RunSteps(st, ops).Success?
    ensures RunSteps(st, ops).value.step == st.step + CountOp(ops, EndStep)
    ensures RunSteps(st, ops).value.inStep == (st.inStep || CountOp(ops, BeginStep) > 0)
    ensures CountOp(ops, BeginStep) <= (if st.inStep then 0 else 1)
    decreases |ops|
  {
    if |ops| > 0 {
      var next := ApplyStep(st, ops[0]).value;
      RunStepsBookkeeping(next, ops[1..]);
    }
  }

  /** The session of the source: begin_step, end_step, then a second begin_step throws. */
  lemma {:induction false} SecondBeginStepThrows(n: int)
    ensures RunSteps(StepState(false, n), [BeginStep, EndStep]) == Success(StepState(true, n + 1))
    ensures RunSteps(StepState(false, n), [BeginStep, EndStep, BeginStep]).Failure?
  {
    var s1 := StepState(true, n);
    var s2 := StepState(true, n + 1);
    assert ApplyStep(StepState(false, n), BeginStep) == Success(s1);
    assert ApplyStep(s1, EndStep) == Success(s2);
    assert [BeginStep, EndStep][1..] == [EndStep];
    assert [BeginStep, EndStep, BeginStep][1..] == [EndStep, BeginStep];
    assert [EndStep, BeginStep][1..] == [BeginStep];
    assert RunSteps(s2, [BeginStep]).Failure?;
  }

  class HDF5Reader {
    /** The names of the open groups, outermost first. */
    var paths: seq<string>
    var inStep: bool
    var step: int
    /** The open file: absolute dataset path to stored string. */
    var file: map<string, string>

    constructor (contents: map<string, string>)
      ensures paths == [] && !inStep && step == 0 && file == contents
    {
      paths := [];
      inStep := false;
      step := 0;
      file := contents;
    }

    /** get_path: "/" followed by the open group names joined by "/". */
    method GetPath() returns (path: string)
      ensures path == AbsolutePath(paths)
      ensures |paths| == 0 ==> path == "/"
      ensures |paths| > 0 ==> path == AbsolutePath(paths[..|paths| - 1]) + (if |paths| > 1 then "/" else "") + paths[|paths| - 1]
    {
      path := "/";
      var i := 0;
      while i < |paths|
        invariant 0 <= i <= |paths|
        invariant path == "/" + Join(paths[..i], "/") + (if 0 < i < |paths| then "/" else "")
      {
        if i > 0 {
          JoinSnoc(paths[..i], "/", paths[i]);
        }
        assert paths[..i + 1] == paths[..i] + [paths[i]];
        path := path + paths[i];
        if i < |paths| - 1 {
          path := path + "/";
        }
        i := i + 1;
      }
      assert paths[..i] == paths;
      if |paths| > 1 {
        JoinSnoc(paths[..|paths| - 1], "/", paths[|paths| - 1]);
        assert paths[..|paths| - 1] + [paths[|paths| - 1]] == paths;
      }
    }

    /** begin_step: throws while a step is open, otherwise opens one. */
    method BeginStep() returns (r: Outcome)
      modifies this
      ensures var next := ApplyStep(old(StepState(inStep, step)), StepOp.BeginStep);
        (next.Success? ==> r == Ok && StepState(inStep, step) == next.value) &&
        (next.Failure? ==> r == Throw(next.kind, next.message) && StepState(inStep, step) == old(StepState(inStep, step)))
      ensures paths == old(paths) && file == old(file)
    {
      if inStep {
        return Throw(RuntimeError, "HDF5Writer::begin_step() called while already in step!");
      }
      inStep := true;
      r := Ok;
    }

    /** end_step: throws unless a step is open, otherwise counts one more step. It does not
        close the step. */
    method EndStep() returns (r: Outcome)
      modifies this
      ensures var next := ApplyStep(old(StepState(inStep, step)), StepOp.EndStep);
        (next.Success? ==> r == Ok && StepState(inStep, step) == next.value) &&
        (next.Failure? ==> r == Throw(next.kind, next.message) && StepState(inStep, step) == old(StepState(inStep, step)))
      ensures paths == old(paths) && file == old(file)
    {
      if !inStep {
        return Throw(RuntimeError, "HDF5Writer::end_step() called while not in step!");
      }
      step := step + 1;
      r := Ok;
    }

    /** execute(name, std::string&): reads the dataset `name` of the current group. When it does
        not exist the result is false and `value` is left as it was; a stored single NUL
        character reads as "". */
    method ExecuteString(name: string, value: string) returns (found: bool, result: string)
      ensures found <==> AbsolutePath(paths) + "/" + name in file
      ensures !found ==> result == value
      ensures found ==> result == NulToEmpty(file[AbsolutePath(paths) + "/" + name])
      ensures |paths| == 0 ==> (found <==> "//" + name in file)
    {
      var path := GetPath();
      var fullName := path + "/" + name;
      assert |paths| == 0 ==> fullName == "//" + name;
      if fullName !in file {
        return false, value;
      }
      result := file[fullName];
      if result == [0 as char] {
        result := "";
      }
      found := true;
    }
  }
}
