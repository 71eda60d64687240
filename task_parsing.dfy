/** The `--complexcycle FILE:ON:OFF ...` argument parser of cycle_manager.py.
    Each entry is split on ':' into exactly three fields; ON and OFF are
    integers counted in hours and are stored in seconds. */
module TaskParsing {

  /** One entry of the task list; `onSec` and `offSec` are in seconds. */
  datatype Task = Task(file: string, onSec: int, offSec: int)

  /** The two ways an entry makes Python raise ValueError. */
  datatype ParseError =
    | WrongFieldCount(entry: string, fields: nat)  // unpacking `entry.split(':')` into three names
    | BadInteger(text: string)                     // `int(text)`

  datatype Option<T> = None | Some(value: T)

  datatype Result<T> = Ok(value: T) | Err(error: ParseError)

  const SecondsPerHour: int := 3600

  // ---------------------------------------------------------------------
  // str.split(':')
  // ---------------------------------------------------------------------

  /** The fields of `s` between the ':' separators, as Python's `s.split(':')`
      gives them (an empty string gives one empty field). */
  function Split(s: string): (parts: seq<string>)
    ensures |parts| >= 1
    decreases |s|
  {
    if s == [] then [""]
    else
      var rest := Split(s[1..]);
      if s[0] == ':' then [""] + rest
      else [[s[0]] + rest[0]] + rest[1..]
  }

  /** The inverse of Split: `':'.join(parts)`. */
  function Join(parts: seq<string>): string
    requires |parts| >= 1
  {
    if |parts| == 1 then parts[0] else parts[0] + ":" + Join(parts[1..])
  }

  /** Splitting and joining again gives back the text. */
  lemma {:induction false} JoinSplit(s: string)
    ensures Join(Split(s)) == s
    decreases |s|
  {
    if s != [] {
      var rest := Split(s[1..]);
      JoinSplit(s[1..]);
      assert s == [s[0]] + s[1..];
      if s[0] == ':' {
        JoinEmptyHead(rest);
      } else {
        JoinExtendHead(s[0], rest);
      }
    }
  }

  lemma JoinEmptyHead(parts: seq<string>)
    requires |parts| >= 1
    ensures Join([""] + parts) == ":" + Join(parts)
  {
    assert ([""] + parts)[1..] == parts;
  }

  lemma JoinExtendHead(c: char, parts: seq<string>)
    requires |parts| >= 1
    ensures Join([[c] + parts[0]] + parts[1..]) == [c] + Join(parts)
  {
    var longer := [[c] + parts[0]] + parts[1..];
    if |parts| > 1 {
      assert longer[1..] == parts[1..];
    }
  }

  /** No field contains the separator. */
  lemma {:induction false} SplitFieldsHaveNoColon(s: string)
    ensures forall i :: 0 <= i < |Split(s)| ==> ':' !in Split(s)[i]
    decreases |s|
  {
    if s != [] {
      SplitFieldsHaveNoColon(s[1..]);
    }
  }

  /** There is one field more than there are ':' characters. */
  lemma {:induction false} SplitCount(s: string)
    ensures |Split(s)| == multiset(s)[':'] + 1
    decreases |s|
  {
    if s != [] {
      SplitCount(s[1..]);
      assert s == [s[0]] + s[1..];
      assert multiset(s) == multiset{s[0]} + multiset(s[1..]);
    }
  }

  /** The first field is the text before the first ':' (all of `s` when it has none). */
  lemma {:induction false} SplitHead(s: string)
    ensures Split(s)[0] <= s
    ensures ':' !in Split(s)[0]
    ensures |Split(s)[0]| < |s| ==> s[|Split(s)[0]|] == ':'
    decreases |s|
  {
    if s != [] && s[0] != ':' {
      SplitHead(s[1..]);
    }
  }

  /** Splitting a colon-free prefix glued to more text extends the first field. */
  lemma {:induction false} SplitPrefix(a: string, rest: string)
    requires ':' !in a
    ensures Split(a + rest) == [a + Split(rest)[0]] + Split(rest)[1..]
    decreases |a|
  {
    if a == [] {
      assert a + rest == rest;
      assert a + Split(rest)[0] == Split(rest)[0];
      assert Split(rest) == [Split(rest)[0]] + Split(rest)[1..];
    } else {
      assert (a + rest)[0] == a[0];
      assert (a + rest)[1..] == a[1..] + rest;
      SplitPrefix(a[1..], rest);
      assert [a[0]] + (a[1..] + Split(rest)[0]) == a + Split(rest)[0];
    }
  }

  /** Joining colon-free fields and splitting again gives back the fields. */
  lemma {:induction false} SplitJoin(parts: seq<string>)
    requires |parts| >= 1
    requires forall i :: 0 <= i < |parts| ==> ':' !in parts[i]
    ensures Split(Join(parts)) == parts
    decreases |parts|
  {
    if |parts| == 1 {
      SplitPrefix(parts[0], "");
      assert parts[0] + "" == parts[0];
    } else {
      SplitJoin(parts[1..]);
      var tail := ":" + Join(parts[1..]);
      SplitPrefix(parts[0], tail);
      assert tail[0] == ':' && tail[1..] == Join(parts[1..]);
      assert Split(tail) == [""] + parts[1..];
      assert parts[0] + "" == parts[0];
      assert Join(parts) == parts[0] + tail;
    }
  }

  // ---------------------------------------------------------------------
  // int(): an optional '-' followed by decimal digits
  // ---------------------------------------------------------------------

  predicate IsDigit(c: char) {
    '0' <= c <= '9'
  }

  predicate AllDigits(s: string) {
    forall i :: 0 <= i < |s| ==> IsDigit(s[i])
  }

  /** The number written by a string of decimal digits (most significant first). */
  function DigitsValue(s: string): nat
    requires AllDigits(s)
  {
    if s == [] then 0
    else 10 * DigitsValue(s[..|s| - 1]) + (s[|s| - 1] as int - '0' as int)
  }

  /** `int(s)` restricted to digits with an optional leading '-'; None on text outside that grammar. */
  function ParseInt(s: string): (r: Option<int>)
    ensures r.Some? <==>
      (s != [] && AllDigits(s)) || (|s| >= 2 && s[0] == '-' && AllDigits(s[1..]))
  {
    if s != [] && s[0] == '-' then
      var digits := s[1..];
      if digits != [] && AllDigits(digits) then var n: int := DigitsValue(digits); Some(-n) else None
    else if s != [] && AllDigits(s) then Some(DigitsValue(s))
    else None
  }

  /** The decimal text of a natural number, without leading zeros. */
  function NatToString(n: nat): (s: string)
    ensures s != [] && AllDigits(s)
    decreases n
  {
    if n < 10 then ['0' + n as char]
    else NatToString(n / 10) + ['0' + (n % 10) as char]
  }

  /** The decimal text of an integer, `str(n)`. */
  function IntToString(n: int): string {
    if n < 0 then "-" + NatToString(-n) else NatToString(n)
  }

  lemma {:induction false} NatToStringValue(n: nat)
    ensures DigitsValue(NatToString(n)) == n
    decreases n
  {
    if n >= 10 {
      NatToStringValue(n / 10);
      var s := NatToString(n);
      assert s[..|s| - 1] == NatToString(n / 10);
    }
  }

  /** `int(str(n)) == n`. */
  lemma ParseIntToString(n: int)
    ensures ParseInt(IntToString(n)) == Some(n)
    ensures ':' !in IntToString(n)
  {
    if n < 0 {
      NatToStringValue(-n);
      var s := IntToString(n);
      assert s[1..] == NatToString(-n);
      assert s[0] == '-' && IsDigit(NatToString(-n)[0]);
    } else {
      NatToStringValue(n);
    }
  }

  // ---------------------------------------------------------------------
  // One entry, and the whole list
  // ---------------------------------------------------------------------

  /** One `FILE:ON:OFF` entry: the three fields of its split, ON and OFF
      converted from hours to seconds. The ON field is converted first, so
      its error is the one reported when both are malformed. */
  function ParseEntry(entry: string): (r: Result<Task>)
    ensures r.Ok? ==> ':' !in r.value.file
    ensures r.Ok? ==> r.value.onSec % SecondsPerHour == 0 && r.value.offSec % SecondsPerHour == 0
    ensures r.Err? && r.error.WrongFieldCount? ==> r.error.entry == entry && r.error.fields != 3
    ensures r.Err? && r.error.BadInteger? ==> ParseInt(r.error.text).None?
    ensures r.Ok? <==> |Split(entry)| == 3 && ParseInt(Split(entry)[1]).Some? && ParseInt(Split(entry)[2]).Some?
    ensures r.Err? && r.error.BadInteger? ==>
      |Split(entry)| == 3 &&
      r.error.text == (if ParseInt(Split(entry)[1]).None? then Split(entry)[1] else Split(entry)[2])
  {
    SplitFieldsHaveNoColon(entry);
    var parts := Split(entry);
    if |parts| != 3 then Err(WrongFieldCount(entry, |parts|))
    else
      match ParseInt(parts[1])
      case None => Err(BadInteger(parts[1]))
      case Some(on) =>
        match ParseInt(parts[2])
        case None => Err(BadInteger(parts[2]))
        case Some(off) => Ok(Task(parts[0], on * SecondsPerHour, off * SecondsPerHour))
  }

  /** An entry is rejected for its field count exactly when it does not hold two ':'. */
  lemma EntryFieldCount(entry: string)
    ensures ParseEntry(entry).Err? && ParseEntry(entry).error.WrongFieldCount?
        <==> multiset(entry)[':'] != 2
  {
    SplitCount(entry);
  }

  /** What an accepted entry looks like: it is the file, ON and OFF texts
      joined by ':', the file is the text before the first ':', and the
      durations are the integers ON and OFF times 3600. */
  lemma EntryFields(entry: string)
    requires ParseEntry(entry).Ok?
    ensures var t := ParseEntry(entry).value;
      var on := Split(entry)[1];
      var off := Split(entry)[2];
      && entry == t.file + ":" + on + ":" + off
      && ':' !in t.file && t.file <= entry && |t.file| < |entry| && entry[|t.file|] == ':'
      && ParseInt(on) == Some(t.onSec / SecondsPerHour) && t.onSec % SecondsPerHour == 0
      && ParseInt(off) == Some(t.offSec / SecondsPerHour) && t.offSec % SecondsPerHour == 0
  {
    var parts := Split(entry);
    JoinSplit(entry);
    SplitHead(entry);
    assert parts[1..][1..] == [parts[2]];
    assert Join(parts[1..]) == parts[1] + ":" + parts[2];
    assert Join(parts) == parts[0] + ":" + (parts[1] + ":" + parts[2]);
  }

  /** Writing a task's file and hour counts as `FILE:ON:OFF` and parsing it
      gives the task back, in seconds. */
  lemma EntryRoundTrip(file: string, onHours: int, offHours: int)
    requires ':' !in file
    ensures ParseEntry(file + ":" + IntToString(onHours) + ":" + IntToString(offHours))
         == Ok(Task(file, onHours * SecondsPerHour, offHours * SecondsPerHour))
  {
    var on, off := IntToString(onHours), IntToString(offHours);
    ParseIntToString(onHours);
    ParseIntToString(offHours);
    var parts := [file, on, off];
    assert parts[1..] == [on, off] && parts[1..][1..] == [off];
    assert Join(parts[1..]) == on + ":" + off;
    assert Join(parts) == file + ":" + on + ":" + off;
    SplitJoin(parts);
  }

  /** `script.py:2:3` is the task (script.py, 7200, 10800). */
  lemma ExampleEntry()
    ensures ParseEntry("script.py:2:3") == Ok(Task("script.py", 7200, 10800))
  {
    EntryRoundTrip("script.py", 2, 3);
    assert IntToString(2) == "2" && IntToString(3) == "3";
    assert "script.py" + ":" + "2" + ":" + "3" == "script.py:2:3";
  }

  /** `parse_complex_cycle_arg`: the entries parsed in order and appended one
      by one; the first malformed entry raises, and no list is returned. */
  method ParseComplexCycleArg(arg: seq<string>) returns (r: Result<seq<Task>>)
    ensures r.Ok? <==> forall i :: 0 <= i < |arg| ==> ParseEntry(arg[i]).Ok?
    ensures r.Ok? ==> |r.value| == |arg|
    ensures r.Ok? ==> forall i :: 0 <= i < |arg| ==> ParseEntry(arg[i]) == Ok(r.value[i])
    ensures r.Err? ==> exists i :: 0 <= i < |arg| && ParseEntry(arg[i]) == Err(r.error)
                                   && forall j :: 0 <= j < i ==> ParseEntry(arg[j]).Ok?
  {
    var tasks: seq<Task> := [];
    for i := 0 to |arg|
      invariant |tasks| == i
      invariant forall j :: 0 <= j < i ==> ParseEntry(arg[j]) == Ok(tasks[j])
    {
      var parsed := ParseEntry(arg[i]);
      if parsed.Err? {
        return Err(parsed.error);
      }
      tasks := tasks + [parsed.value];
    }
    return Ok(tasks);
  }
}
