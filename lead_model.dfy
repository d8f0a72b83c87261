/** The lead record and its lifecycle states (app/models/lead.py). */
module LeadModel {
  import opened Common

  /** Primary key: the text of a uuid4, assigned once at insert. */
  type LeadId = string

  /** A server clock reading. */
  type Timestamp = int

  /** A string-valued enum: each state's value is its own name. */
  datatype LeadState = Pending | ReachedOut {
    function Value(): string {
      match this
      case Pending => "PENDING"
      case ReachedOut => "REACHED_OUT"
    }
  }

  /** `LeadState(s)`: look a state up by its value. */
  function ParseLeadState(s: string): (r: Option<LeadState>)
    ensures r.Some? <==> s == "PENDING" || s == "REACHED_OUT"
    ensures r.Some? ==> r.value.Value() == s
  {
    if s == "PENDING" then Some(Pending)
    else if s == "REACHED_OUT" then Some(ReachedOut)
    else None
  }

  /** Each state is recovered from its value, so the two values are distinct. */
  lemma ParseValue(st: LeadState)
    ensures ParseLeadState(st.Value()) == Some(st)
  {
  }

  /**
   * A row of the `leads` table. The three names and the email are required;
   * `resumePath` is nullable.
   */
  datatype Lead = Lead(
    id: LeadId,
    firstName: string,
    lastName: string,
    email: string,
    resumePath: Option<string>,
    state: LeadState,
    createdAt: Timestamp,
    updatedAt: Timestamp)

  /** A row as first inserted: the column defaults give state PENDING and both timestamps `now`. */
  function NewLead(id: LeadId, firstName: string, lastName: string, email: string,
                   resumePath: Option<string>, now: Timestamp): (r: Lead)
    ensures r.state == Pending && r.createdAt == now && r.updatedAt == r.createdAt
    ensures r.id == id && r.resumePath == resumePath
    ensures r.firstName == firstName && r.lastName == lastName && r.email == email
  {
    Lead(id, firstName, lastName, email, resumePath, Pending, now, now)
  }
}
