/** The license mapper: one fleet-wide record, of which only the first is read. */
module License {
  import opened JsonField
  import opened Prelude
  import opened Timestamps

  datatype RawLicense =
    | NotALicense
    | RawLicense(regStatus: Field<string>, authStatus: Field<string>, evalUsed: Field<bool>, evalExpiresInDays: Field<real>,
                 lastSynchronizedTime: Field<string>, lastRenewedTime: Field<string>)

  datatype LicensePayload = NotAnObject | NoItems | Items(items: seq<RawLicense>)

  datatype Status = Status(regStatus: string, authStatus: Option<string>, evalUsed: Option<bool>, evalExpiresInDays: Option<real>,
                           lastSynchronizedTime: Option<int>, lastRenewedTime: Option<int>)

  /** A mapped response: the status, if any, and how many parse errors were recorded. */
  datatype MappedLicense = MappedLicense(status: Option<Status>, errors: nat)

  function OptionOf<T>(f: Field<T>): Option<T> { if f.Value? then Some(f.value) else None }

  function Fault<T>(f: Field<T>): nat { if f.WrongType? then 1 else 0 }

  function ReadTime(f: Field<string>, engine: Engine): Option<int>
  {
    if f.Value? then ParseLicenseTimestamp(engine, f.value) else None
  }

  function TimeFault(f: Field<string>, engine: Engine): nat
  {
    if f.WrongType? || (f.Value? && ParseLicenseTimestamp(engine, f.value).None?) then 1 else 0
  }

  /** A wrong detail is dropped and recorded; only a missing or blank regStatus costs the record. */
  function MapLicense(payload: LicensePayload, engine: Engine): MappedLicense
  {
    if !payload.Items? then MappedLicense(None, 1)
    else if payload.items == [] then MappedLicense(None, 0)
    else
      var extra, first := if |payload.items| > 1 then 1 else 0, payload.items[0];
      if first.NotALicense? || !first.regStatus.Value? || first.regStatus.value == "" then MappedLicense(None, extra + 1)
      else
        MappedLicense(
          Some(Status(first.regStatus.value, OptionOf(first.authStatus), OptionOf(first.evalUsed), OptionOf(first.evalExpiresInDays),
                      ReadTime(first.lastSynchronizedTime, engine), ReadTime(first.lastRenewedTime, engine))),
          extra + Fault(first.authStatus) + Fault(first.evalUsed) + Fault(first.evalExpiresInDays)
          + TimeFault(first.lastSynchronizedTime, engine) + TimeFault(first.lastRenewedTime, engine))
  }
  /** Every detail of a license is taken from its own field, and every faulty one is reported and left out. */
  lemma LicenseFields(payload: LicensePayload, engine: Engine, text: string, yes: bool, days: real, ms: int)
    requires payload.Items? && payload.items != [] && payload.items[0].RawLicense?
    requires payload.items[0].regStatus.Value? && payload.items[0].regStatus.value != ""
    ensures var mapped, raw := MapLicense(payload, engine), payload.items[0];
            && mapped.status.Some?
            && var s := mapped.status.value;
            && s.regStatus == raw.regStatus.value
            && (s.authStatus == Some(text) <==> raw.authStatus == Value(text))
            && (s.evalUsed == Some(yes) <==> raw.evalUsed == Value(yes))
            && (s.evalExpiresInDays == Some(days) <==> raw.evalExpiresInDays == Value(days))
            && (s.lastSynchronizedTime == Some(ms) <==>
                  raw.lastSynchronizedTime.Value? && ParseLicenseTimestamp(engine, raw.lastSynchronizedTime.value) == Some(ms))
            && (s.lastRenewedTime == Some(ms) <==>
                  raw.lastRenewedTime.Value? && ParseLicenseTimestamp(engine, raw.lastRenewedTime.value) == Some(ms))
            && (mapped.errors == 0 <==>
                  && |payload.items| == 1
                  && !raw.authStatus.WrongType? && !raw.evalUsed.WrongType? && !raw.evalExpiresInDays.WrongType?
                  && (raw.lastSynchronizedTime.Absent? || s.lastSynchronizedTime.Some?)
                  && (raw.lastRenewedTime.Absent? || s.lastRenewedTime.Some?))
  {
  }
}
