/**
 Flag words and flag tables, and the masked update at the end of do_flag (src/flags.c):
 set, add, remove or toggle marked bits, except that a bit that may not be set by hand
 is never taken away.

 A 64-bit flag word is the set of its one-bits, a table entry names one bit:
 IS_SET, SET_BIT and REMOVE_BIT are membership, union and difference.
 */
module FlagBits {

  type Bit = b: nat | b < 64

  type Word = set<Bit>

  datatype Flag = Flag(name: string, bit: Bit, settable: bool, rname: string)

  /** No two entries have the same bit. */
  ghost predicate Distinguished(flags: seq<Flag>) {
    forall i, j | 0 <= i < j < |flags| :: flags[i].bit != flags[j].bit
  }

  /** All bits of the table. */
  function Mask(flags: seq<Flag>): Word {
    set i | 0 <= i < |flags| :: flags[i].bit
  }

  // ----- the table loop of do_flag

  /** The character in front of the words: '=', '+', '-', or none for toggle. */
  datatype Op = Assign | Add | Remove | Toggle

  /** The set bits that may not be set by hand. */
  function Kept(flags: seq<Flag>, prior: Word): Word {
    set i | 0 <= i < |flags| && !flags[i].settable && flags[i].bit in prior :: flags[i].bit
  }

  function SymmetricDifference(a: Word, b: Word): Word { (a - b) + (b - a) }

  /** The closed form: the marked table bits, less the kept ones, combined with the base value. */
  function Updated(flags: seq<Flag>, op: Op, prior: Word, marked: Word): Word {
    var chosen := marked * Mask(flags) - Kept(flags, prior);
    match op
    case Assign => chosen + Kept(flags, prior)
    case Add => prior + chosen
    case Remove => prior - chosen
    case Toggle => SymmetricDifference(prior, chosen)
  }

  method UpdateFlag(flags: seq<Flag>, op: Op, prior: Word, marked: Word) returns (newFlag: Word)
    requires Distinguished(flags)
    ensures newFlag == Updated(flags, op, prior, marked)
  {
    newFlag := if op == Assign then {} else prior;
    for pos := 0 to |flags|
      invariant newFlag == Updated(flags[..pos], op, prior, marked)
    {
      var bit := flags[pos].bit;
      OneMoreEntry(flags, pos, prior);
      if !flags[pos].settable && bit in prior {
        newFlag := newFlag + {bit};
        continue;
      }
      if bit in marked {
        match op
        case Assign => newFlag := newFlag + {bit};
        case Add => newFlag := newFlag + {bit};
        case Remove => newFlag := newFlag - {bit};
        case Toggle =>
          if bit in newFlag {
            newFlag := newFlag - {bit};
          } else {
            newFlag := newFlag + {bit};
          }
      }
    }
    assert flags[..|flags|] == flags;
  }

  lemma OneMoreEntry(flags: seq<Flag>, pos: nat, prior: Word)
    requires pos < |flags| && Distinguished(flags)
    ensures var f, seen := flags[pos], flags[..pos];
            && Mask(flags[..pos + 1]) == Mask(seen) + {f.bit}
            && Kept(flags[..pos + 1], prior)
               == Kept(seen, prior) + (if !f.settable && f.bit in prior then {f.bit} else {})
            && f.bit !in Mask(seen) && f.bit !in Kept(seen, prior)
  {
  }

  // ----- what the closed form means, bit by bit

  /** Whether bit b of the table is set afterwards. */
  predicate Outcome(flags: seq<Flag>, op: Op, prior: Word, marked: Word, b: Bit) {
    if b in Kept(flags, prior) then true
    else if b !in marked || b !in Mask(flags) then op != Assign && b in prior
    else op == Assign || op == Add || (op == Toggle && b !in prior)
  }

  lemma UpdatedBitByBit(flags: seq<Flag>, op: Op, prior: Word, marked: Word)
    ensures forall b: Bit :: b in Updated(flags, op, prior, marked) <==> Outcome(flags, op, prior, marked, b)
  {
  }

  // ----- runs

  datatype Command = Command(op: Op, marked: Word)

  function RunOn(flags: seq<Flag>, cmds: seq<Command>, prior: Word): Word {
    if cmds == [] then prior
    else
      var last := cmds[|cmds| - 1];
      Updated(flags, last.op, RunOn(flags, cmds[..|cmds| - 1], prior), last.marked)
  }

  /** Over any run of commands a set bit that may not be set by hand is never cleared. */
  lemma {:induction false} NeverCleared(flags: seq<Flag>, cmds: seq<Command>, prior: Word, i: nat)
    requires i < |flags| && !flags[i].settable && flags[i].bit in prior
    ensures flags[i].bit in RunOn(flags, cmds, prior)
  {
    if cmds != [] {
      var before := RunOn(flags, cmds[..|cmds| - 1], prior);
      NeverCleared(flags, cmds[..|cmds| - 1], prior, i);
      assert flags[i].bit in Kept(flags, before);
    }
  }

  /** Toggling twice gives the old word back exactly if no marked entry is one that may not be set by
      hand and was off: such a bit is switched on and is protected from then on. */
  lemma ToggleTwice(flags: seq<Flag>, prior: Word, marked: Word)
    requires Distinguished(flags)
    ensures Updated(flags, Toggle, Updated(flags, Toggle, prior, marked), marked) == prior <==>
            forall i | 0 <= i < |flags| && flags[i].bit in marked && !flags[i].settable :: flags[i].bit in prior
  {
  }
}
