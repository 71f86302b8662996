/**
 * `ScriptMigration`: a migration whose `migrate` splits its script on `;`
 * (with the semantics of Java's `String.split`) and runs the pieces one by
 * one, stopping with false at the first statement that throws.
 */
module ScriptMigrations {
  import opened Wrappers
  import opened Cql

  const Delimiter: char := ';'

  /** Joins pieces with the delimiter between them. */
  function Join(ps: seq<string>): string
  {
    if ps == [] then ""
    else if |ps| == 1 then ps[0]
    else Join(ps[..|ps| - 1]) + [Delimiter] + ps[|ps| - 1]
  }

  /**
   * Every piece of `s` between delimiters, the empty ones included: one more
   * piece than there are delimiters.
   */
  function Pieces(s: string): (r: seq<string>)
    ensures |r| >= 1
  {
    if s == [] then [""]
    else
      var p := Pieces(s[..|s| - 1]);
      var c := s[|s| - 1];
      if c == Delimiter then p + [""]
      else p[..|p| - 1] + [p[|p| - 1] + [c]]
  }

  /** No piece contains the delimiter. */
  lemma {:induction false} PiecesHaveNoDelimiter(s: string)
    ensures forall i :: 0 <= i < |Pieces(s)| ==> Delimiter !in Pieces(s)[i]
  {
    if s != [] {
      var p := Pieces(s[..|s| - 1]);
      PiecesHaveNoDelimiter(s[..|s| - 1]);
      if s[|s| - 1] != Delimiter {
        var r := Pieces(s);
        forall i | 0 <= i < |r| ensures Delimiter !in r[i] {
          if i < |p| - 1 {
            assert r[i] == p[i];
          }
        }
      }
    }
  }

  /** Drops the run of empty pieces at the end of a list. */
  function DropTrailingEmpty(ps: seq<string>): (r: seq<string>)
    ensures |r| <= |ps| && r == ps[..|r|]
    ensures forall i :: |r| <= i < |ps| ==> ps[i] == ""
    ensures r == [] || r[|r| - 1] != ""
  {
    if ps != [] && ps[|ps| - 1] == "" then
      var r := DropTrailingEmpty(ps[..|ps| - 1]);
      assert forall i :: |r| <= i < |ps| - 1 ==> ps[i] == ps[..|ps| - 1][i];
      r
    else ps
  }

  /**
   * `script.split(";")`: when the delimiter does not occur, the whole string
   * is the only piece (even when it is empty); otherwise the pieces with the
   * trailing empty ones removed.
   */
  function Split(s: string): (r: seq<string>)
    ensures forall i :: 0 <= i < |r| ==> Delimiter !in r[i]
  {
    if Delimiter !in s then [s]
    else
      PiecesHaveNoDelimiter(s);
      DropTrailingEmpty(Pieces(s))
  }

  /** The string without its trailing run of delimiters. */
  function TrimTrailingDelimiters(s: string): (r: string)
  {
    if s != [] && s[|s| - 1] == Delimiter then TrimTrailingDelimiters(s[..|s| - 1]) else s
  }

  // ---------------------------------------------------------------------------
  // Splitting and joining
  // ---------------------------------------------------------------------------

  lemma {:induction false} JoinExtendLast(ps: seq<string>, c: char)
    requires ps != []
    ensures Join(ps[..|ps| - 1] + [ps[|ps| - 1] + [c]]) == Join(ps) + [c]
  {
    var qs := ps[..|ps| - 1] + [ps[|ps| - 1] + [c]];
    if |ps| > 1 {
      assert qs[..|qs| - 1] == ps[..|ps| - 1];
      assert Join(qs) == Join(ps[..|ps| - 1]) + [Delimiter] + (ps[|ps| - 1] + [c]);
    }
  }

  /** Joining all the pieces gives back the string. */
  lemma {:induction false} JoinPieces(s: string)
    ensures Join(Pieces(s)) == s
  {
    if s != [] {
      var p := Pieces(s[..|s| - 1]);
      JoinPieces(s[..|s| - 1]);
      if s[|s| - 1] == Delimiter {
        assert (p + [""])[..|p|] == p;
      } else {
        JoinExtendLast(p, s[|s| - 1]);
      }
      assert s == s[..|s| - 1] + [s[|s| - 1]];
    }
  }

  /** A string without delimiters is a single piece. */
  lemma {:induction false} PiecesOfPlain(w: string)
    requires Delimiter !in w
    ensures Pieces(w) == [w]
  {
    if w != [] {
      PiecesOfPlain(w[..|w| - 1]);
      assert w == w[..|w| - 1] + [w[|w| - 1]];
    }
  }

  /** Appending a character other than the delimiter extends the last piece. */
  lemma {:induction false} PiecesSnoc(t: string, c: char)
    requires c != Delimiter
    ensures var q := Pieces(t); Pieces(t + [c]) == q[..|q| - 1] + [q[|q| - 1] + [c]]
  {
    assert (t + [c])[..|t|] == t;
  }

  /** One more character other than the delimiter extends the same last piece. */
  lemma {:induction false} PiecesAppendStep(s: string, w: string, c: char)
    requires c != Delimiter
    requires var p := Pieces(s); Pieces(s + w) == p[..|p| - 1] + [p[|p| - 1] + w]
    ensures var p := Pieces(s); Pieces(s + (w + [c])) == p[..|p| - 1] + [p[|p| - 1] + (w + [c])]
  {
    assert s + (w + [c]) == (s + w) + [c];
    PiecesSnoc(s + w, c);
    var p := Pieces(s);
    var q := Pieces(s + w);
    assert q[..|q| - 1] == p[..|p| - 1];
    assert q[|q| - 1] == p[|p| - 1] + w;
    assert q[|q| - 1] + [c] == p[|p| - 1] + (w + [c]);
  }

  /** Appending text without delimiters extends the last piece. */
  lemma {:induction false} PiecesAppendPlain(s: string, w: string)
    requires Delimiter !in w
    ensures var p := Pieces(s); Pieces(s + w) == p[..|p| - 1] + [p[|p| - 1] + w]
    decreases |w|
  {
    if w == [] {
      var p := Pieces(s);
      assert s + w == s;
      assert p[|p| - 1] + w == p[|p| - 1];
      assert p == p[..|p| - 1] + [p[|p| - 1]];
    } else {
      var w' := w[..|w| - 1];
      assert w == w' + [w[|w| - 1]];
      assert Delimiter !in w' by {
        assert forall x :: x in w' ==> x in w;
      }
      PiecesAppendPlain(s, w');
      PiecesAppendStep(s, w', w[|w| - 1]);
    }
  }

  /** Pieces without delimiters, joined and split again, come back unchanged. */
  lemma {:induction false} PiecesOfJoin(ps: seq<string>)
    requires ps != []
    requires forall i :: 0 <= i < |ps| ==> Delimiter !in ps[i]
    ensures Pieces(Join(ps)) == ps
  {
    if |ps| == 1 {
      PiecesOfPlain(ps[0]);
    } else {
      var init := ps[..|ps| - 1];
      var last := ps[|ps| - 1];
      var j := Join(init) + [Delimiter];
      assert Pieces(j) == init + [""] by {
        PiecesOfJoin(init);
        assert j[..|j| - 1] == Join(init);
        PiecesOfTrailingDelimiter(j);
      }
      assert Pieces(j + last) == init + [last] by {
        PiecesAppendPlain(j, last);
        var pj := Pieces(j);
        assert pj[..|pj| - 1] == init;
        assert pj[|pj| - 1] + last == last;
      }
      assert Join(ps) == j + last;
      assert ps == init + [last];
    }
  }

  /** A string that ends in a delimiter ends in an empty piece. */
  lemma {:induction false} PiecesOfTrailingDelimiter(s: string)
    requires s != [] && s[|s| - 1] == Delimiter
    ensures Pieces(s) == Pieces(s[..|s| - 1]) + [""]
  {
  }

  /** A string that ends in another character ends in a non-empty piece. */
  lemma {:induction false} LastPieceNonEmpty(s: string)
    requires s != [] && s[|s| - 1] != Delimiter
    ensures Pieces(s)[|Pieces(s)| - 1] != ""
  {
  }

  lemma {:induction false} JoinDropPieces(s: string)
    ensures Join(DropTrailingEmpty(Pieces(s))) == TrimTrailingDelimiters(s)
  {
    if s == [] {
    } else if s[|s| - 1] == Delimiter {
      PiecesOfTrailingDelimiter(s);
      var p := Pieces(s[..|s| - 1]);
      assert (p + [""])[..|p|] == p;
      JoinDropPieces(s[..|s| - 1]);
    } else {
      LastPieceNonEmpty(s);
      JoinPieces(s);
    }
  }

  lemma {:induction false} TrimPlain(s: string)
    requires Delimiter !in s
    ensures TrimTrailingDelimiters(s) == s
  {
  }

  /**
   * Split round trip: joining the commands with `;` gives back the script
   * without its trailing run of `;`.
   */
  lemma {:induction false} SplitRoundTrip(s: string)
    ensures Join(Split(s)) == TrimTrailingDelimiters(s)
  {
    if Delimiter in s {
      JoinDropPieces(s);
    } else {
      TrimPlain(s);
    }
  }

  /**
   * Only trailing empty pieces are dropped: the commands are the pieces of the
   * script up to the last non-empty one, interior empty pieces included.
   */
  lemma {:induction false} SplitKeepsInteriorPieces(s: string)
    requires Delimiter in s
    ensures var p := Pieces(s); var r := Split(s);
            && r == p[..|r|]
            && (forall i :: |r| <= i < |p| ==> p[i] == "")
            && (r == [] || r[|r| - 1] != "")
  {
  }

  /** A script made of a lone `;` gives no command at all; an empty script gives one empty command. */
  lemma {:induction false} SplitEdgeCases()
    ensures Split(";") == []
    ensures Split("") == [""]
  {
    assert Pieces(";") == ["", ""] by {
      assert ";"[..0] == "";
    }
  }

  /** Interior empty pieces are commands; the trailing one is not. */
  lemma {:induction false} SplitKeepsInteriorEmpty()
    ensures Split("a;;b;") == ["a", "", "b"]
  {
    var ps := ["a", "", "b", ""];
    assert Join(ps) == "a;;b;" by {
      assert Join(["a", ""]) == "a;" by {
        assert ["a", ""][..1] == ["a"];
      }
      assert Join(["a", "", "b"]) == "a;;b" by {
        assert ["a", "", "b"][..2] == ["a", ""];
      }
      assert ps[..3] == ["a", "", "b"];
    }
    assert forall i :: 0 <= i < |ps| ==> Delimiter !in ps[i];
    PiecesOfJoin(ps);
    assert "a;;b;"[1] == Delimiter;
    assert ps[..3] == ["a", "", "b"];
  }

  // ---------------------------------------------------------------------------
  // Running the commands
  // ---------------------------------------------------------------------------

  /**
   * The position of the first command the database rejects when the commands
   * from `i` on run after `log`, or `|cmds|` when it accepts them all.
   */
  function FirstRejected(rejects: (seq<string>, string) -> bool, log: seq<string>, cmds: seq<string>, i: nat): (k: nat)
    requires i <= |cmds|
    ensures i <= k <= |cmds|
    decreases |cmds| - i
  {
    if i == |cmds| then i
    else if rejects(log + cmds[..i], cmds[i]) then i
    else FirstRejected(rejects, log, cmds, i + 1)
  }

  /**
   * `FirstRejected` is the first rejection: every command before it is
   * accepted after the ones before it, and the command there is rejected.
   */
  lemma {:induction false} FirstRejectedIsFirst(rejects: (seq<string>, string) -> bool, log: seq<string>, cmds: seq<string>, i: nat)
    requires i <= |cmds|
    ensures var k := FirstRejected(rejects, log, cmds, i);
            && (forall j :: i <= j < k ==> !rejects(log + cmds[..j], cmds[j]))
            && (k < |cmds| ==> rejects(log + cmds[..k], cmds[k]))
    decreases |cmds| - i
  {
    if i < |cmds| && !rejects(log + cmds[..i], cmds[i]) {
      FirstRejectedIsFirst(rejects, log, cmds, i + 1);
    }
  }

  class ScriptMigration {
    /** The script text; None stands for a null script. */
    var script: Option<string>

    constructor ()
      ensures script.None?
    {
      script := None;
    }

    method SetScript(script: Option<string>)
      modifies this
      ensures this.script == script
    {
      this.script := script;
    }

    /**
     * Runs the commands of the script in order, each at most once. The result
     * is true exactly when every command ran; the first command that throws
     * ends the run, and the commands after it never run. Commands that ran
     * stay run. A null script runs nothing and gives false.
     */
    method Migrate(session: CqlSession) returns (ok: bool)
      modifies session
      ensures script.None? ==> !ok && session.executed == old(session.executed)
      ensures script.Some? ==>
        var cmds := Split(script.value);
        var k := FirstRejected(session.rejects, old(session.executed), cmds, 0);
        && ok == (k == |cmds|)
        && session.executed == old(session.executed) + cmds[..k]
      ensures session.tables == old(session.tables)
    {
      if script.None? {
        // getScript().split(";") throws NullPointerException, which is caught
        return false;
      }
      var commands := Split(script.value);
      ghost var log := session.executed;
      for i := 0 to |commands|
        invariant session.executed == log + commands[..i]
        invariant FirstRejected(session.rejects, log, commands, 0) == FirstRejected(session.rejects, log, commands, i)
        invariant session.tables == old(session.tables)
      {
        var accepted := session.Execute(commands[i]);
        if !accepted {
          assert FirstRejected(session.rejects, log, commands, i) == i;
          return false;
        }
        assert FirstRejected(session.rejects, log, commands, i) == FirstRejected(session.rejects, log, commands, i + 1);
        assert commands[..i + 1] == commands[..i] + [commands[i]];
      }
      assert commands[..|commands|] == commands;
      ok := true;
    }
  }
}
