/**
 * One slot of the board: the drawn hexagon (its cell and highlight mode) and
 * the piece standing on it, if any.
 */
module Entries {
  import opened Wrappers
  import Cells
  import Modes
  import opened Pieces

  /** The parts of a drawn hexagon that the board logic reads and writes. */
  datatype Hexagon = Hexagon(cell: Cells.Cell, mode: Modes.HighlightMode) {

    /** `Hexagon::set_current`: forwards to the highlight mode. */
    function SetCurrent(current: bool): (h: Hexagon)
      ensures h.cell == cell && h.mode == mode.SetCurrent(current)
    {
      Hexagon(cell, mode.SetCurrent(current))
    }

    /** `Hexagon::set_status`: forwards to the highlight mode. */
    function SetStatus(status: Modes.Status): (h: Hexagon)
      ensures h.cell == cell && h.mode == mode.SetStatus(status)
    {
      Hexagon(cell, mode.SetStatus(status))
    }
  }

  datatype Entry = Entry(hex: Hexagon, occupant: Option<Piece>) {

    function Hex(): Hexagon { hex }

    function Occupant(): Option<Piece> { occupant }

    /** Writing through `hex_mut`: the occupant stays. */
    function WithHex(h: Hexagon): (e: Entry)
      ensures e.Hex() == h && e.Occupant() == Occupant()
    {
      Entry(h, occupant)
    }

    /** Writing through `occupant_mut` (only when there is an occupant): the hexagon stays. */
    function WithOccupant(p: Piece): (e: Entry)
      ensures e.Hex() == Hex()
      ensures e.Occupant() == if occupant.Some? then Some(p) else None
    {
      if occupant.Some? then Entry(hex, Some(p)) else this
    }
  }

  /** `Entry::new`: stores both parts. */
  function New(hex: Hexagon, occupant: Option<Piece>): (e: Entry)
    ensures e.Hex() == hex && e.Occupant() == occupant
  {
    Entry(hex, occupant)
  }

  /** `Entry::default`: the default hexagon (at F6, no highlight) and no occupant. */
  const Default: Entry := Entry(Hexagon(Cells.Default, Modes.Default), None)

  lemma DefaultIsEmpty()
    ensures Default.Occupant().None?
    ensures !Default.Hex().mode.Current() && Default.Hex().mode.GetStatus() == Modes.Status.None
  {
  }
}
