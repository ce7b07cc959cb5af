/**
 * The per-session state the pages keep (`st.session_state`), made explicit:
 * the current page and the three scratch lists, with each user action
 * changing only its own part.
 */
module Session {
  import opened Wrappers
  import opened Replies
  import Routing
  import Medications
  import Journal
  import Appointments

  datatype State = State(
    currentPage: string,
    medications: seq<Medications.Medication>,
    journal: seq<Journal.JournalEntry>,
    appointments: seq<Appointments.Appointment>)

  /** A fresh session: on the home page, every list empty. */
  const Initial := State(Routing.Home, [], [], [])

  datatype Action =
    | Visit(query: string)
    | AddMedication(name: string, dosage: string, frequency: string)
    | RemoveMedication(index: nat)
    | SaveJournalEntry(date: int, text: string)
    | AddAppointment(title: string, date: int, time: Appointments.TimeOfDay)

  /** One user action: a page load reads the query string, a form submission updates its list and
      answers with a reply. */
  function Apply(s: State, a: Action): (r: (State, Option<Reply>))
    ensures a.Visit? <==> r.1.None?
    ensures !a.Visit? ==> r.0.currentPage == s.currentPage
    ensures !(a.AddMedication? || a.RemoveMedication?) ==> r.0.medications == s.medications
    ensures !a.SaveJournalEntry? ==> r.0.journal == s.journal
    ensures !a.AddAppointment? ==> r.0.appointments == s.appointments
    ensures a.AddMedication? || a.SaveJournalEntry? || a.AddAppointment?
            ==> (r.1.value.Success? <==> |r.0.medications| + |r.0.journal| + |r.0.appointments|
                                         == |s.medications| + |s.journal| + |s.appointments| + 1)
    ensures a.RemoveMedication? ==> (r.1.value.Success? <==> |r.0.medications| == |s.medications| - 1)
  {
    match a
    case Visit(query) =>
      (s.(currentPage := Routing.Navigate(s.currentPage, query)), None)
    case AddMedication(name, dosage, frequency) =>
      var (meds, reply) := Medications.Add(s.medications, name, dosage, frequency);
      (s.(medications := meds), Some(reply))
    case RemoveMedication(index) =>
      var (meds, reply) := Medications.Remove(s.medications, index);
      (s.(medications := meds), Some(reply))
    case SaveJournalEntry(date, text) =>
      var (entries, reply) := Journal.Add(s.journal, date, text);
      (s.(journal := entries), Some(reply))
    case AddAppointment(title, date, time) =>
      var (appts, reply) := Appointments.Add(s.appointments, title, date, time);
      (s.(appointments := appts), Some(reply))
  }

  /** The current page is always one of the pages: true of a fresh session and kept by every
      action, so rendering it never needs the fallback to Home. */
  lemma CurrentPageStaysAPage(s: State, a: Action)
    requires s.currentPage in Routing.Pages
    ensures Apply(s, a).0.currentPage in Routing.Pages
  {
    assert Routing.Home == Routing.Pages[0];
  }

  lemma InitialOnAPage()
    ensures Initial.currentPage in Routing.Pages
  {
    assert Routing.Pages[0] == Routing.Home;
  }
}
