/** The action log (app.py lines 86-105): an append-only table of decisions taken on
    cards, read whole, extended by one record and written back whole. */
module ActionLog {
  import opened Wrappers
  import opened Cards

  /** One logged decision. `ts` is the UTC timestamp of the click, given by the caller. */
  datatype ActionRecord = ActionRecord(
    ts: string, matchId: string, cardType: string, action: string, aId: string, bId: string)

  /** The labels of the per-card action radio button, in display order. */
  const ActionLabels: seq<string> := ["meet (20 мин)", "adr (черновик)", "dismiss"]

  /** The action names the log records. */
  const ActionNames: seq<string> := ["meet", "adr", "dismiss"]

  /** `choice.split(" ")[0]`: everything before the first space. */
  function FirstWord(choice: string): (w: string)
    ensures w <= choice
    ensures ' ' !in w
    ensures |w| < |choice| ==> choice[|w|] == ' '
  {
    if choice == [] || choice[0] == ' ' then [] else [choice[0]] + FirstWord(choice[1..])
  }

  /** The record a click on "Выполнить" builds for `card` with the chosen radio option `choice`. */
  function MakeRecord(ts: string, card: Card, choice: string): ActionRecord
  {
    ActionRecord(ts, card.matchId, card.cardType, FirstWord(choice), card.aId, card.bId)
  }

  /** Each radio option records its action name: `meet`, `adr` or `dismiss`; the other
      fields come from the card. */
  lemma RecordedAction(ts: string, card: Card, k: nat)
    requires k < |ActionLabels|
    ensures var r := MakeRecord(ts, card, ActionLabels[k]);
      && r.action == ActionNames[k]
      && r.ts == ts && r.matchId == card.matchId && r.cardType == card.cardType
      && r.aId == card.aId && r.bId == card.bId
  {
    assert ActionLabels[0][4] == ' ' && ActionLabels[1][3] == ' ';
    assert FirstWord(ActionLabels[k]) == ActionNames[k] by {
      assert ActionLabels[0][..4] == ActionNames[0];
      assert ActionLabels[1][..3] == ActionNames[1];
    }
  }

  /** The log after one append: `[rec]` when there was no log, else every old record
      unchanged, then `rec`. */
  function Appended(log: Option<seq<ActionRecord>>, rec: ActionRecord): (r: seq<ActionRecord>)
    ensures log.None? ==> r == [rec]
    ensures log.Some? ==> |r| == |log.value| + 1 && r[..|log.value|] == log.value && r[|log.value|] == rec
  {
    match log
    case None => [rec]
    case Some(records) => records + [rec]
  }

  /** How a click ends: the success notice or the error notice. */
  datatype WriteOutcome = Recorded | WriteFailed

  /** The log file: None while it does not exist. */
  class ActionLogStore {
    var log: Option<seq<ActionRecord>>

    constructor (existing: Option<seq<ActionRecord>>)
      ensures log == existing
    {
      log := existing;
    }

    /** Reads the log (if any), concatenates `rec` and writes the whole log back.
        `storeUsable` is whether reading and writing the file succeed; when they do not,
        the record is dropped and the log is left as it was. */
    method Append(rec: ActionRecord, storeUsable: bool) returns (outcome: WriteOutcome)
      modifies this
      ensures outcome == (if storeUsable then Recorded else WriteFailed)
      ensures storeUsable ==> log == Some(Appended(old(log), rec))
      ensures !storeUsable ==> log == old(log)
      ensures old(log).Some? ==> log.Some? && old(log.value) <= log.value
    {
      if !storeUsable {
        return WriteFailed;
      }
      var records: seq<ActionRecord>;
      if log.Some? {
        records := log.value + [rec];
      } else {
        records := [rec];
      }
      log := Some(records);
      outcome := Recorded;
    }
  }

  /** The log after a run of successful clicks, one `Appended` per click. */
  function AfterClicks(log: Option<seq<ActionRecord>>, recs: seq<ActionRecord>): seq<ActionRecord>
    decreases |recs|
  {
    if recs == [] then (if log.None? then [] else log.value)
    else AfterClicks(Some(Appended(log, recs[0])), recs[1..])
  }

  /** Successful clicks only ever add to the end: the log ends up as the records that were
      there, followed by one record per click, in click order. */
  lemma {:induction false} ClicksAppendInOrder(log: Option<seq<ActionRecord>>, recs: seq<ActionRecord>)
    ensures AfterClicks(log, recs) == (if log.None? then [] else log.value) + recs
    decreases |recs|
  {
    if recs != [] {
      ClicksAppendInOrder(Some(Appended(log, recs[0])), recs[1..]);
      assert recs == [recs[0]] + recs[1..];
    }
  }
}
