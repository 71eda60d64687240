/** The listing and killing helpers of cycle_manager.py, with the operating
    system's answers (the directory listing, the `ps -fA` output, the `pkill`
    exit status) given as inputs. */
module ProcessQueries {

  /** One name returned by the directory listing, with whether it names a regular file. */
  datatype DirEntry = DirEntry(name: string, isFile: bool)

  predicate EndsWith(s: string, suffix: string) {
    |suffix| <= |s| && s[|s| - |suffix|..] == suffix
  }

  /** `pat` occurs somewhere in `s` (Python's `pat in s`). */
  predicate Contains(s: string, pat: string)
    decreases |s|
  {
    if |s| < |pat| then false
    else s[..|pat|] == pat || Contains(s[1..], pat)
  }

  /** `pat` sits in `s` starting at index `i`. */
  predicate OccursAt(s: string, pat: string, i: nat) {
    i + |pat| <= |s| && s[i..i + |pat|] == pat
  }

  /** `Contains` agrees with "`pat` sits in `s` at some index". */
  lemma {:induction false} ContainsWindow(s: string, pat: string)
    ensures Contains(s, pat) <==> exists i: nat :: OccursAt(s, pat, i)
    decreases |s|
  {
    if |s| < |pat| {
      assert forall i: nat :: !OccursAt(s, pat, i);
    } else if s[..|pat|] == pat {
      assert OccursAt(s, pat, 0);
    } else {
      ContainsWindow(s[1..], pat);
      if Contains(s[1..], pat) {
        var i: nat :| OccursAt(s[1..], pat, i);
        assert s[i + 1..i + 1 + |pat|] == s[1..][i..i + |pat|];
        assert OccursAt(s, pat, i + 1);
      }
      if exists i: nat :: OccursAt(s, pat, i) {
        var i: nat :| OccursAt(s, pat, i);
        assert i > 0;
        assert s[1..][i - 1..i - 1 + |pat|] == s[i..i + |pat|];
        assert OccursAt(s[1..], pat, i - 1);
      }
    }
  }

  predicate IsPythonFile(e: DirEntry) {
    e.isFile && EndsWith(e.name, ".py")
  }

  /** `list_python_files`: the names of the regular files ending in `.py`, in listing order. */
  function ListPythonFiles(entries: seq<DirEntry>): (files: seq<string>)
    ensures |files| <= |entries|
    ensures forall i :: 0 <= i < |files| ==> EndsWith(files[i], ".py")
  {
    if entries == [] then []
    else
      var rest := ListPythonFiles(entries[..|entries| - 1]);
      var e := entries[|entries| - 1];
      if IsPythonFile(e) then rest + [e.name] else rest
  }

  /** A name is listed exactly when some regular-file entry with a `.py` name carries it. */
  lemma {:induction false} ListPythonFilesMembers(entries: seq<DirEntry>, name: string)
    ensures name in ListPythonFiles(entries) <==>
      exists i :: 0 <= i < |entries| && entries[i].name == name && IsPythonFile(entries[i])
    decreases |entries|
  {
    if entries != [] {
      var n := |entries| - 1;
      ListPythonFilesMembers(entries[..n], name);
      if exists i :: 0 <= i < |entries| && entries[i].name == name && IsPythonFile(entries[i]) {
        var i :| 0 <= i < |entries| && entries[i].name == name && IsPythonFile(entries[i]);
        if i < n {
          assert entries[..n][i] == entries[i];
        }
      }
    }
  }

  /** The filter keeps order: listing a concatenation is concatenating the listings. */
  lemma {:induction false} ListPythonFilesAppend(a: seq<DirEntry>, b: seq<DirEntry>)
    ensures ListPythonFiles(a + b) == ListPythonFiles(a) + ListPythonFiles(b)
    decreases |b|
  {
    if b == [] {
      assert a + b == a;
    } else {
      var b' := b[..|b| - 1];
      assert (a + b)[..|a + b| - 1] == a + b';
      ListPythonFilesAppend(a, b');
    }
  }

  /** A directory holding `a.py`, `b.py` and `c.txt` lists `a.py` and `b.py`. */
  lemma ListPythonFilesExample()
    ensures ListPythonFiles([DirEntry("a.py", true), DirEntry("b.py", true), DirEntry("c.txt", true)])
         == ["a.py", "b.py"]
  {
    var entries := [DirEntry("a.py", true), DirEntry("b.py", true), DirEntry("c.txt", true)];
    assert entries[..2][..1][..0] == [];
    assert entries[..2][..1] == [DirEntry("a.py", true)];
    assert entries[..2] == [DirEntry("a.py", true), DirEntry("b.py", true)];
    assert !EndsWith("c.txt", ".py");
  }

  /** The filter of `list_running_processes`: the lines that mention `python`, in order. */
  function PythonProcessLines(lines: seq<string>): (kept: seq<string>)
    ensures |kept| <= |lines|
    ensures forall i :: 0 <= i < |kept| ==> Contains(kept[i], "python")
  {
    if lines == [] then []
    else
      var rest := PythonProcessLines(lines[..|lines| - 1]);
      var line := lines[|lines| - 1];
      if Contains(line, "python") then rest + [line] else rest
  }

  /** A line is kept exactly when it is one of the input lines and mentions `python`. */
  lemma {:induction false} PythonProcessLinesMembers(lines: seq<string>, line: string)
    ensures line in PythonProcessLines(lines) <==> line in lines && Contains(line, "python")
    decreases |lines|
  {
    if lines != [] {
      var n := |lines| - 1;
      PythonProcessLinesMembers(lines[..n], line);
      assert lines == lines[..n] + [lines[n]];
    }
  }

  lemma {:induction false} PythonProcessLinesAppend(a: seq<string>, b: seq<string>)
    ensures PythonProcessLines(a + b) == PythonProcessLines(a) + PythonProcessLines(b)
    decreases |b|
  {
    if b == [] {
      assert a + b == a;
    } else {
      var b' := b[..|b| - 1];
      assert (a + b)[..|a + b| - 1] == a + b';
      PythonProcessLinesAppend(a, b');
    }
  }

  /** What running `ps -fA` gave: its output lines, or the exception it raised. */
  datatype PsRun = PsOutput(lines: seq<string>) | PsRaised(error: string)

  datatype ProcessListing = Listed(processes: seq<string>) | ListError(error: string)

  /** `list_running_processes`: the python lines of the output, or the reported error. */
  function ListRunningProcesses(ps: PsRun): (r: ProcessListing)
    ensures r.ListError? <==> ps.PsRaised?
    ensures ps.PsRaised? ==> r.error == ps.error
    ensures ps.PsOutput? ==> forall line :: line in r.processes <==> line in ps.lines && Contains(line, "python")
  {
    match ps
    case PsRaised(e) => ListError(e)
    case PsOutput(lines) =>
      var kept := PythonProcessLines(lines);
      assert forall line :: line in kept <==> line in lines && Contains(line, "python") by {
        forall line ensures line in kept <==> line in lines && Contains(line, "python") {
          PythonProcessLinesMembers(lines, line);
        }
      }
      Listed(kept)
  }

  /** What running `pkill -f NAME` gave: its exit status, or the exception it raised. */
  datatype PkillRun = Exited(code: int) | PkillRaised(error: string)

  datatype KillOutcome = Killed | NotFound | KillError(error: string)

  /** `kill_process_by_name`: exit status 0 reports success; every other
      status, whatever `pkill` meant by it, reports that nothing was found. */
  function KillProcessByName(run: PkillRun): (r: KillOutcome)
    ensures r == Killed <==> run == Exited(0)
    ensures r == NotFound <==> run.Exited? && run.code != 0
    ensures r.KillError? <==> run.PkillRaised?
    ensures r.KillError? ==> r.error == run.error
  {
    match run
    case PkillRaised(e) => KillError(e)
    case Exited(code) => if code == 0 then Killed else NotFound
  }
}
