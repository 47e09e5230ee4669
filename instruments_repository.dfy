/** `instrumentsRepository`: instruments with a number, an amount, a date and
    an optional picture object. The three columns are stored as given. */
module InstrumentsRepository {
  import opened Common
  import opened SoftDelete

  datatype Instrument = Instrument(number: string, amount: string, date: string)

  method CreateInstrument(t: Table<Instrument>, number: string, amount: string, date: string,
                          picture: Option<string>, now: Time)
    returns (instrument: Row<Instrument>)
    requires t.Valid()
    modifies t
    ensures t.Valid()
    ensures var o := CreateStep(old(t.Snapshot()), Instrument(number, amount, date), picture, now);
      o.result == Success(instrument) && t.Snapshot() == o.store
  {
    instrument := t.Insert(Instrument(number, amount, date), picture, now);
  }

  method UpdateInstrument(t: Table<Instrument>, id: int, number: string, amount: string, date: string,
                          picture: Option<string>, now: Time)
    returns (r: Result<Row<Instrument>, string>)
    requires t.Valid()
    modifies t, t.bucket
    ensures t.Valid()
    ensures var o := UpdateStep(old(t.Snapshot()), id, Instrument(number, amount, date), picture, now);
      r == o.result && t.Snapshot() == o.store
  {
    r := t.Update(id, Instrument(number, amount, date), picture, now);
  }

  method DeleteInstrument(t: Table<Instrument>, id: int, now: Time) returns (r: Result<bool, string>)
    requires t.Valid()
    modifies t, t.bucket
    ensures t.Valid()
    ensures var o := DeleteStep(old(t.Snapshot()), id, now);
      r == o.result && t.Snapshot() == o.store
  {
    r := t.Delete(id, now);
  }
}
