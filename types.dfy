/** The records of the scheduler and its fixed catalogs. */
module Types {
  import opened Wrappers

  /** A bookable room: its identifier and display name. */
  datatype Studio = Studio(id: string, name: string)

  /** A stored reservation. All fields are text: times are `HH:MM`, the date `YYYY-MM-DD`. */
  datatype Booking = Booking(
    id: string,
    studio: string,
    date: string,
    startTime: string,
    endTime: string,
    name: string,
    recordingPurpose: string,
    subject: string)

  /** A reservation before its store has given it an id. */
  datatype NewBooking = NewBooking(
    studio: string,
    date: string,
    startTime: string,
    endTime: string,
    name: string,
    recordingPurpose: string,
    subject: string)

  /** What the booking form is opened with: a studio, and the booking when editing one. */
  datatype ModalData = ModalData(studio: string, startTime: Option<string>, booking: Option<Booking>)

  datatype RecordingPurpose = YouTube | Planner | SmartCourse | Live

  /** The string value each purpose carries in a booking record. */
  function PurposeLabel(p: RecordingPurpose): string
  {
    match p
    case YouTube => "YouTube"
    case Planner => "Planner"
    case SmartCourse => "Smart Course"
    case Live => "Live"
  }

  const STUDIOS: seq<Studio> := [
    Studio("studio-1", "Studio 1"),
    Studio("studio-2", "Studio 2"),
    Studio("studio-3", "Studio 3"),
    Studio("studio-4", "Studio 4"),
    Studio("golden-studio", "312 Golden Studio"),
    Studio("sargasan-studio-1", "Sargasan Studio 1"),
    Studio("sargasan-studio-2", "Sargasan Studio 2")
  ]

  const RECORDING_PURPOSES: seq<RecordingPurpose> := [YouTube, Planner, SmartCourse, Live]

}
