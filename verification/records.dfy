/** The documents of the `sessions` collection that both analyses read. A field that the
    document lacks (or holds as null) is `None`, except `horseName`, where the two differ. */
module Records {
  import opened Wrappers
  import opened Calendar

  /** A stored measurement: a number, or a value of some other kind (a string, say) together
      with its Python truthiness. Arithmetic on the second kind raises. */
  datatype Reading = Num(value: real) | NonNumeric(truthy: bool)

  /** A session's `createdAt` after `pd.to_datetime`: a timestamp, or a value it cannot convert. */
  datatype CreatedAt = Parsed(ts: Timestamp) | Unparseable

  /** One entry of a session's `trainings` array. */
  datatype Training = Training(
    trainingStatus: Option<string>,
    trainingType: Option<string>,
    intensity: Option<string>,
    temperatureCelsius: Option<Reading>,
    duration: Option<Reading>,
    heartRateBefore: Option<Reading>,
    heartRateDuring: Option<Reading>,
    heartRateAfter: Option<Reading>,
    ratingScore: Option<Reading>)

  /** A stored `horseName`: no such field, a null value, or a text. */
  datatype StoredName = Absent | Null | Text(text: string)

  /** A session document. `horseId` is the text of the stored id; `createdAt` is `None`
      when it is missing or falsy. */
  datatype Session = Session(
    horseId: Option<string>,
    horseName: StoredName,
    createdAt: Option<CreatedAt>,
    trainings: seq<Training>)

  predicate IsCompleted(t: Training)
  {
    t.trainingStatus == Some("Completed")
  }

  /** `session.get("horseName", "Unknown")`: the default applies only to a missing field; a
      stored null comes back as `None`. */
  function HorseName(s: Session): Option<string>
  {
    match s.horseName
    case Absent => Some("Unknown")
    case Null => None
    case Text(name) => Some(name)
  }

  /** `ObjectId(text)` accepts exactly the 24-digit hexadecimal strings; it raises otherwise. */
  predicate ValidObjectId(text: string)
  {
    |text| == 24 && forall i | 0 <= i < |text| :: text[i] in "0123456789abcdefABCDEF"
  }
}
