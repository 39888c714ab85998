/** A player's sidebar scoreboard (`bb_server/src/player/scoreboard.rs`):
    fifteen text lines, a display position and whether the objective is
    shown. Every packet the scoreboard sends through the player's
    connection is appended to the log `sent`; the connection itself and
    the formatting of chat text into a code string are outside the model
    (a line's text arrives already formatted). */
module Scoreboards {

  /** Number of lines of a scoreboard. */
  const LINES: nat := 15

  /** The objective every packet names, and the title it is created with. */
  const OBJECTIVE: string := "scoreboard"
  const TITLE: string := "Scoreboard"

  /** Where the objective is displayed. Only the sidebar, the initial
      position, is named; the other positions are told apart by a code. */
  datatype DisplayPosition = Sidebar | OtherPosition(code: nat)

  datatype ObjectiveType = Integer

  /** The packets the scoreboard sends. */
  datatype Packet =
    | ObjectiveCreate(objective: string, value: string, ty: ObjectiveType)
    | ObjectiveRemove(objective: string)
    | Display(position: DisplayPosition, objective: string)
    | ScoreCreate(username: string, objective: string, score: int)
    | ScoreRemove(username: string, objective: string)

  /** Whether the objective exists on the client after `log`: the last
      objective packet of the log created it. */
  function ObjectiveLive(log: seq<Packet>): bool
  {
    if log == [] then false
    else
      match log[|log| - 1]
      case ObjectiveCreate(_, _, _) => true
      case ObjectiveRemove(_) => false
      case _ => ObjectiveLive(log[..|log| - 1])
  }

  /** Packets other than objective packets leave the objective as it was. */
  lemma LiveAfter(log: seq<Packet>, p: Packet)
    ensures ObjectiveLive(log + [p]) ==
      if p.ObjectiveCreate? then true else if p.ObjectiveRemove? then false else ObjectiveLive(log)
  {
    assert (log + [p])[..|log|] == log;
  }

  /** The length of the longest line. */
  function MaxLen(lines: seq<string>): (r: nat)
    ensures forall i :: 0 <= i < |lines| ==> |lines[i]| <= r
  {
    if lines == [] then 0
    else
      var m := MaxLen(lines[..|lines| - 1]);
      if |lines[|lines| - 1]| > m then |lines[|lines| - 1]| else m
  }

  /** `text` followed by as few spaces as make it differ from every line. */
  function Unique(lines: seq<string>, text: string): (r: string)
    ensures r !in lines
    ensures |r| >= |text| && r[..|text|] == text
    ensures forall i :: |text| <= i < |r| ==> r[i] == ' '
    ensures forall k :: |text| <= k < |r| ==> r[..k] in lines
    decreases MaxLen(lines) - |text|
  {
    if text in lines then
      var r := Unique(lines, text + " ");
      assert r[..|text| + 1] == text + " ";
      assert r[..|text|] == text;
      r
    else text
  }

  /** Non-empty lines are all different (the client keys scores by their
      text, so two equal lines would be one score). */
  predicate DistinctLines(lines: seq<string>)
  {
    forall i, j :: 0 <= i < |lines| && 0 <= j < |lines| && i != j && lines[i] != "" ==> lines[i] != lines[j]
  }

  class Scoreboard {
    var position: DisplayPosition
    var shown: bool
    var lines: seq<string>
    /** Every packet sent since the scoreboard was made. */
    var sent: seq<Packet>

    /** Fifteen lines, the objective shown exactly when it exists on the
        client, and no two equal non-empty lines. */
    predicate Valid()
      reads this
    {
      |lines| == LINES && (shown <==> ObjectiveLive(sent)) && DistinctLines(lines)
    }

    /** `Scoreboard::new`: fifteen empty lines, at the sidebar, not shown. */
    constructor ()
      ensures position == Sidebar && !shown && sent == []
      ensures lines == seq(LINES, _ => "")
      ensures Valid()
    {
      position := Sidebar;
      shown := false;
      lines := seq(LINES, _ => "");
      sent := [];
    }

    /** `Scoreboard::show`: when not shown, create the objective and display
        it at the current position; when shown, nothing. */
    method Show()
      requires Valid()
      modifies this
      ensures Valid() && shown
      ensures position == old(position) && lines == old(lines)
      ensures sent == if old(shown) then old(sent)
        else old(sent) + [ObjectiveCreate(OBJECTIVE, TITLE, Integer), Display(position, OBJECTIVE)]
    {
      if !shown {
        LiveAfter(sent, ObjectiveCreate(OBJECTIVE, TITLE, Integer));
        sent := sent + [ObjectiveCreate(OBJECTIVE, TITLE, Integer)];
        LiveAfter(sent, Display(position, OBJECTIVE));
        sent := sent + [Display(position, OBJECTIVE)];
        shown := true;
      }
    }

    /** `Scoreboard::hide` as written: it acts only when the objective is
        NOT shown, removing an objective the client does not have, and
        leaves a shown scoreboard shown. */
    method HideAsWritten()
      requires Valid()
      modifies this
      ensures Valid()
      ensures shown == old(shown)
      ensures position == old(position) && lines == old(lines)
      ensures sent == if old(shown) then old(sent) else old(sent) + [ObjectiveRemove(OBJECTIVE)]
    {
      if !shown {
        LiveAfter(sent, ObjectiveRemove(OBJECTIVE));
        sent := sent + [ObjectiveRemove(OBJECTIVE)];
        shown := false;
      }
    }

    /** `Scoreboard::hide` as intended: when shown, remove the objective. */
    method Hide()
      requires Valid()
      modifies this
      ensures Valid() && !shown
      ensures position == old(position) && lines == old(lines)
      ensures sent == if old(shown) then old(sent) + [ObjectiveRemove(OBJECTIVE)] else old(sent)
    {
      if shown {
        LiveAfter(sent, ObjectiveRemove(OBJECTIVE));
        sent := sent + [ObjectiveRemove(OBJECTIVE)];
        shown := false;
      }
    }

    /** `Scoreboard::display`: move the objective; the client hears of the
        move only when the position changes and the objective is shown. */
    method SetDisplay(p: DisplayPosition)
      requires Valid()
      modifies this
      ensures Valid() && position == p
      ensures shown == old(shown) && lines == old(lines)
      ensures sent == if p != old(position) && shown then old(sent) + [Display(p, OBJECTIVE)] else old(sent)
    {
      if p != position {
        position := p;
        if shown {
          LiveAfter(sent, Display(p, OBJECTIVE));
          sent := sent + [Display(p, OBJECTIVE)];
        }
      }
    }

    /** `Scoreboard::clear_line`: remove the line's score and empty it. */
    method ClearLine(line: nat)
      requires Valid() && line < LINES
      modifies this
      ensures Valid()
      ensures lines == old(lines)[line := ""]
      ensures sent == old(sent) + [ScoreRemove(old(lines[line]), OBJECTIVE)]
      ensures shown == old(shown) && position == old(position)
    {
      LiveAfter(sent, ScoreRemove(lines[line], OBJECTIVE));
      sent := sent + [ScoreRemove(lines[line], OBJECTIVE)];
      lines := lines[line := ""];
    }

    /** `Scoreboard::set_line`: nothing when the line already reads `text`;
        otherwise pad `text` with spaces until no line reads it, remove the
        line's old score and create the new one with the line's number. */
    method SetLine(line: nat, text: string)
      requires Valid() && line < LINES
      modifies this
      ensures Valid()
      ensures shown == old(shown) && position == old(position)
      ensures text == old(lines[line]) ==> lines == old(lines) && sent == old(sent)
      ensures text != old(lines[line]) ==>
        var stored := Unique(old(lines), text);
        lines == old(lines)[line := stored] &&
        sent == old(sent) + [ScoreRemove(old(lines[line]), OBJECTIVE), ScoreCreate(stored, OBJECTIVE, line)]
    {
      if text == lines[line] {
        return;
      }
      var padded := text;
      while padded in lines
        invariant |padded| >= |text| && Unique(lines, padded) == Unique(lines, text)
        decreases MaxLen(lines) - |padded|
      {
        padded := padded + " ";
      }
      LiveAfter(sent, ScoreRemove(lines[line], OBJECTIVE));
      sent := sent + [ScoreRemove(lines[line], OBJECTIVE)];
      ghost var before := lines;
      lines := lines[line := padded];
      LiveAfter(sent, ScoreCreate(lines[line], OBJECTIVE, line));
      sent := sent + [ScoreCreate(lines[line], OBJECTIVE, line)];
      DistinctAfterSet(before, line, padded);
    }
  }

  /** Storing a text that no line holds keeps the non-empty lines distinct. */
  lemma DistinctAfterSet(lines: seq<string>, line: nat, text: string)
    requires DistinctLines(lines) && line < |lines| && text !in lines
    ensures DistinctLines(lines[line := text])
  {
    var after := lines[line := text];
    forall i, j | 0 <= i < |after| && 0 <= j < |after| && i != j && after[i] != ""
      ensures after[i] != after[j]
    {
      if i == line {
        assert after[j] == lines[j];
      } else if j == line {
        assert after[i] == lines[i];
      }
    }
  }

  /** Hiding a shown scoreboard: as written it stays shown and nothing is
      sent; as intended it is hidden. */
  method HideAfterShow() returns (asWritten: bool, corrected: bool)
    ensures asWritten && !corrected
  {
    var a := new Scoreboard();
    a.Show();
    a.HideAsWritten();
    asWritten := a.shown;
    var b := new Scoreboard();
    b.Show();
    b.Hide();
    corrected := b.shown;
  }
}
