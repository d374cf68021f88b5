/** The highlight state of one board cell: the cursor flag and the move-preview status. */
module Modes {

  datatype Status = None | Capturable | Movable

  /** `HighlightMode`; the setters return the updated record. */
  datatype HighlightMode = HighlightMode(current: bool, status: Status) {

    function Current(): (b: bool)
      ensures b <==> this == HighlightMode(true, status)
    {
      current
    }

    function GetStatus(): (s: Status)
      ensures this == HighlightMode(current, s)
    {
      status
    }

    /** `set_current`: changes the cursor flag and nothing else. */
    function SetCurrent(c: bool): (m: HighlightMode)
      ensures m.Current() == c && m.GetStatus() == GetStatus()
    {
      HighlightMode(c, status)
    }

    /** `set_status`: changes the status and nothing else. */
    function SetStatus(s: Status): (m: HighlightMode)
      ensures m.GetStatus() == s && m.Current() == Current()
    {
      HighlightMode(current, s)
    }
  }

  /** The derived default: not the cursor, no status. */
  const Default: HighlightMode := HighlightMode(false, Status.None)

  /** `HighlightMode::new`: the getters give back what was stored. */
  function New(current: bool, status: Status): (m: HighlightMode)
    ensures m.Current() == current && m.GetStatus() == status
  {
    HighlightMode(current, status)
  }

  /** Setting a field back to its old value undoes a setter. */
  lemma SettersUndo(m: HighlightMode, c: bool, s: Status)
    ensures m.SetCurrent(c).SetCurrent(m.Current()) == m
    ensures m.SetStatus(s).SetStatus(m.GetStatus()) == m
  {
  }

  lemma SettersCommute(m: HighlightMode, c: bool, s: Status)
    ensures m.SetCurrent(c).SetStatus(s) == m.SetStatus(s).SetCurrent(c) == New(c, s)
  {
  }
}
