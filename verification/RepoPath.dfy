/** Repository paths and where they lead when joined to the cache directory
    (extensions/vectorize/hf/hub.go:126, 181-192). */
module RepoPath {
  datatype PathError = EmptyPath | InvalidSegment

  /** The parts between slashes. */
  function Split(p: string): (parts: seq<string>)
    ensures |parts| >= 1
    ensures forall i | 0 <= i < |parts| :: '/' !in parts[i]
  {
    if p == "" then [""]
    else
      var rest := Split(p[1..]);
      if p[0] == '/' then [""] + rest else [[p[0]] + rest[0]] + rest[1..]
  }

  function Joined(parts: seq<string>): string
    requires |parts| >= 1
  {
    if |parts| == 1 then parts[0] else parts[0] + "/" + Joined(parts[1..])
  }

  predicate ValidSegment(part: string) {
    part != "" && part != "." && part != ".." && '\\' !in part && ':' !in part
  }

  predicate ValidPath(p: string) {
    forall i | 0 <= i < |Split(p)| :: ValidSegment(Split(p)[i])
  }

  /** A character other than the slash is in a path exactly when it is in some part. */
  lemma {:induction false} InSomePart(p: string, c: char)
    requires c != '/'
    ensures c in p <==> exists i | 0 <= i < |Split(p)| :: c in Split(p)[i]
  {
    if p == "" {
    } else {
      var rest := Split(p[1..]);
      InSomePart(p[1..], c);
      assert p == [p[0]] + p[1..];
      assert Split(p) == if p[0] == '/' then [""] + rest else [[p[0]] + rest[0]] + rest[1..];
      if i :| 0 <= i < |rest| && c in rest[i] {
        assert c in Split(p)[if p[0] == '/' then i + 1 else i];
      }
      if p[0] == c {
        assert c in Split(p)[0];
      }
    }
  }

  lemma ValidIff(p: string)
    ensures ValidPath(p) <==> '\\' !in p && ':' !in p && forall part | part in Split(p) :: part !in {"", ".", ".."}
  {
    InSomePart(p, '\\');
    InSomePart(p, ':');
    var parts := Split(p);
    hide Split;
    assert forall i | 0 <= i < |parts| :: parts[i] in parts;
    if ValidPath(p) {
      forall part | part in parts ensures part !in {"", ".", ".."} {
        var i :| 0 <= i < |parts| && parts[i] == part;
        assert ValidSegment(parts[i]);
      }
      assert forall i | 0 <= i < |parts| :: ValidSegment(parts[i]);
    }
  }

  method ValidateRepoPath(p: string) returns (valid: bool, error: PathError)
    ensures valid <==> ValidPath(p)
    ensures valid <==> '\\' !in p && ':' !in p && forall part | part in Split(p) :: part !in {"", ".", ".."}
    ensures !valid ==> error == if p == "" then EmptyPath else InvalidSegment
  {
    error := InvalidSegment;
    ValidIff(p);
    if p == "" {
      assert !ValidSegment(Split(p)[0]);
      return false, EmptyPath;
    }
    var parts := Split(p);
    for i := 0 to |parts|
      invariant forall j | 0 <= j < i :: ValidSegment(parts[j])
    {
      if parts[i] == "" || parts[i] == "." || parts[i] == ".." || '\\' in parts[i] || ':' in parts[i] {
        return false, InvalidSegment;
      }
    }
    valid := true;
  }

  /** Lexical cleaning of an absolute path: empty and "." parts vanish and ".." removes the part before it. */
  function Clean(parts: seq<string>): seq<string> {
    if parts == [] then []
    else
      var front, last := Clean(parts[..|parts| - 1]), parts[|parts| - 1];
      if last == "" || last == "." then front
      else if last == ".." then (if front == [] then [] else front[..|front| - 1])
      else front + [last]
  }

  lemma {:induction false} JoinedSplit(p: string)
    ensures Joined(Split(p)) == p
  {
    if p == "" {
    } else {
      var rest := Split(p[1..]);
      JoinedSplit(p[1..]);
      if p[0] == '/' {
        assert ([""] + rest)[1..] == rest;
        assert "" + "/" + p[1..] == p;
      } else {
        var parts := [[p[0]] + rest[0]] + rest[1..];
        assert parts[1..] == rest[1..];
        if |rest| > 1 {
          assert [p[0]] + rest[0] + "/" + Joined(rest[1..]) == [p[0]] + (rest[0] + "/" + Joined(rest[1..]));
        }
        assert [p[0]] + p[1..] == p;
      }
    }
  }

  lemma CleanAppend(parts: seq<string>, last: string)
    requires ValidSegment(last)
    ensures Clean(parts + [last]) == Clean(parts) + [last]
  {
    assert (parts + [last])[..|parts|] == parts;
  }

  lemma {:induction false} CleanValid(dir: seq<string>, parts: seq<string>)
    requires Clean(dir) == dir && forall i | 0 <= i < |parts| :: ValidSegment(parts[i])
    ensures Clean(dir + parts) == dir + parts
    decreases |parts|
  {
    hide Clean, ValidSegment;
    if parts == [] {
      assert dir + parts == dir;
    } else {
      var front, last := parts[..|parts| - 1], parts[|parts| - 1];
      CleanValid(dir, front);
      CleanAppend(dir + front, last);
      assert dir + parts == (dir + front) + [last];
    }
  }

  /** For a validated model and file name the local path is the cache directory followed by exactly their
      parts: it stays inside the directory, and the names can be read back from the parts. */
  lemma StaysInside(dir: seq<string>, model: string, remote: string)
    requires Clean(dir) == dir && ValidPath(model) && ValidPath(remote)
    ensures Clean(dir + Split(model) + Split(remote)) == dir + Split(model) + Split(remote)
    ensures Joined(Split(model)) == model && Joined(Split(remote)) == remote
  {
    JoinedSplit(model);
    JoinedSplit(remote);
    CleanValid(dir, Split(model));
    CleanValid(dir + Split(model), Split(remote));
  }

  /** The names of temporary files are valid, so validation does not keep one from being requested. */
  lemma TemporaryNamesAreValid(suffix: string)
    requires '/' !in suffix && '\\' !in suffix && ':' !in suffix
    ensures ValidPath(".download-" + suffix)
  {
    hide Split;
    NoSlash(".download-" + suffix);
  }

  lemma {:induction false} NoSlash(p: string)
    requires '/' !in p
    ensures Split(p) == [p]
  {
    if p == "" {
    } else {
      NoSlash(p[1..]);
      assert [p[0]] + p[1..] == p;
    }
  }
}
