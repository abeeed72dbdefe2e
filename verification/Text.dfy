/** Texts as lines. */
module Text {

  predicate NewlineFree(p: string) {
    '\n' !in p
  }

  /** The lines of a text; a final newline ends the last line instead of opening another. */
  function Lines(t: string): seq<string> {
    if t == "" then []
    else if t[0] == '\n' then [""] + Lines(t[1..])
    else
      var rest := Lines(t[1..]);
      if rest == [] then [[t[0]]] else [[t[0]] + rest[0]] + rest[1..]
  }

  ghost predicate Terminated(t: string) {
    t == "" || t[|t| - 1] == '\n'
  }

  lemma {:induction false} LinesOfOne(p: string, rest: string)
    requires NewlineFree(p)
    ensures Lines(p + "\n" + rest) == [p] + Lines(rest)
  {
    var t := p + "\n" + rest;
    if p == "" {
      assert t[1..] == rest;
    } else {
      assert t[1..] == p[1..] + "\n" + rest;
      LinesOfOne(p[1..], rest);
      var tail := [p[1..]] + Lines(rest);
      assert tail[0] == p[1..] && tail[1..] == Lines(rest);
      assert [p[0]] + p[1..] == p;
    }
  }

  lemma {:induction false} LinesConcat(t: string, u: string)
    requires Terminated(t)
    ensures Lines(t + u) == Lines(t) + Lines(u)
  {
    if t == "" {
      assert t + u == u;
    } else {
      assert (t + u)[1..] == t[1..] + u;
      LinesConcat(t[1..], u);
      if t[0] != '\n' {
        assert t[1..] != "";
      }
    }
  }

  lemma {:induction false} LinesAreNewlineFree(t: string)
    ensures forall l :: l in Lines(t) ==> NewlineFree(l)
  {
    if t != "" {
      LinesAreNewlineFree(t[1..]);
      var rest := Lines(t[1..]);
      if t[0] != '\n' && rest != [] {
        assert rest[0] in rest;
        assert forall l :: l in rest[1..] ==> l in rest;
      }
    }
  }

  lemma {:induction false} LinesUnterminated(t: string)
    requires NewlineFree(t) && t != ""
    ensures Lines(t) == [t]
  {
    assert t[0] in t;
    if t[1..] == "" {
      assert Lines(t[1..]) == [];
      assert [t[0]] == t;
    } else {
      LinesUnterminated(t[1..]);
      assert [t[0]] + t[1..] == t;
    }
  }

  /** A text is its first line followed by the lines of the rest. */
  lemma {:induction false} LinesFirst(t: string, nl: nat)
    requires nl <= |t| && t != "" && NewlineFree(t[..nl])
    requires nl < |t| ==> t[nl] == '\n'
    ensures Lines(t) == [t[..nl]] + Lines(if nl < |t| then t[nl + 1..] else "")
  {
    if nl < |t| {
      assert t == t[..nl] + "\n" + t[nl + 1..];
      LinesOfOne(t[..nl], t[nl + 1..]);
    } else {
      assert t[..nl] == t;
      LinesUnterminated(t);
    }
  }
}
