/** Folds matched signatures into a verdict and logs one line for each. */
module MessageHandling {
  import opened Signatures

  datatype HandleReport = AllowReport | DropReport

  datatype LogLine = AlertLine(meta: MetaData, action: Action, protocol: Protocol) | UnknownActionLine

  function LineFor(sig: Signature): LogLine {
    if sig.action == NotSupportedAction then UnknownActionLine
    else AlertLine(sig.meta, sig.action, sig.protocol)
  }

  /** One line for each signature, in order. */
  function LinesFor(sigs: seq<Signature>): (r: seq<LogLine>)
    ensures |r| == |sigs| && forall i :: 0 <= i < |sigs| ==> r[i] == LineFor(sigs[i])
  {
    if sigs == [] then [] else LinesFor(sigs[..|sigs| - 1]) + [LineFor(sigs[|sigs| - 1])]
  }

  /** One matched signature that does not merely alert is enough to drop. */
  predicate CallsForDrop(sigs: seq<Signature>) {
    exists i :: 0 <= i < |sigs| && sigs[i].action != Alert
  }

  class MessageHandler {
    var log: seq<LogLine>

    constructor ()
      ensures log == []
    {
      log := [];
    }

    method Handle(sigs: seq<Signature>) returns (rep: HandleReport)
      modifies this
      ensures rep == DropReport <==> CallsForDrop(sigs)
      ensures log == old(log) + LinesFor(sigs)
    {
      rep := AllowReport;
      for i := 0 to |sigs|
        invariant rep == DropReport <==> CallsForDrop(sigs[..i])
        invariant log == old(log) + LinesFor(sigs[..i])
      {
        if sigs[i].action == Alert {
          log := log + [AlertLine(sigs[i].meta, Alert, sigs[i].protocol)];
        } else if sigs[i].action == Drop {
          log := log + [AlertLine(sigs[i].meta, Drop, sigs[i].protocol)];
          rep := DropReport;
        } else {
          log := log + [UnknownActionLine];
          rep := DropReport;
        }
        assert forall j :: 0 <= j < i ==> sigs[..i + 1][j] == sigs[..i][j];
        assert sigs[..i + 1][..i] == sigs[..i] && sigs[..i + 1][i] == sigs[i];
      }
      assert sigs[..|sigs|] == sigs;
    }
  }

  /** An action that is neither "alert" nor "drop" drops as well, and leaves a line of its
      own. */
  lemma UnknownActionsDrop(sig: Signature)
    ensures CallsForDrop([sig]) <==> sig.action == Drop || sig.action == NotSupportedAction
    ensures LinesFor([sig])
      == [if sig.action == Drop || sig.action == Alert then AlertLine(sig.meta, sig.action, sig.protocol)
          else UnknownActionLine]
  {
    assert [sig][0] == sig && [sig][..0] == [];
  }
}
