/** The REST collaborator `omevv.invoke_request`, seen from outside: a request
    goes in, a response envelope comes out. Every modelled operation returns the
    log of the requests it issued beside its value or the exception it raised. */
module Transport {
  import opened Values

  datatype Verb = GET | POST | PUT | DELETE

  /** One call `invoke_request(verb, uri, payload)`; a GET or DELETE carries no payload. */
  datatype Request = Request(verb: Verb, uri: string, payload: Option<Obj>)

  /** The response envelope: the `success` flag and `json_data`, a list of records. */
  datatype Response = Response(success: bool, jsonData: seq<Obj>)

  /** The transport: whatever the appliance answers to each request. */
  type Invoke = Request -> Response

  /** What an operation did: the requests it sent, in order, and then either
      the value it returned or the exception it raised. */
  datatype Outcome<T> =
    | Returned(sent: seq<Request>, value: T)
    | Raised(sent: seq<Request>, error: PyError)

  const ProfileUri: string := "/RepositoryProfiles"
  const TestConnectionUri: string := "/RepositoryProfiles/TestConnection"

  function BaselineProfileUri(vcenterUuid: string): string
  {
    "/Consoles/" + vcenterUuid + "/BaselineProfiles"
  }

  function ClusterUri(vcenterUuid: string): string
  {
    "/Consoles/" + vcenterUuid + "/Clusters"
  }

  function ClusterIdsUri(vcenterUuid: string): string
  {
    "/Consoles/" + vcenterUuid + "/Groups/getGroupsForClusters"
  }

  /** `str(n)` for a natural number: its decimal digits. */
  function NatString(n: nat): string
    decreases n
  {
    if n < 10 then ["0123456789"[n]]
    else NatString(n / 10) + ["0123456789"[n % 10]]
  }

  /** `str(i)` for an int. */
  function IntString(i: int): string
  {
    if i < 0 then "-" + NatString(-i) else NatString(i)
  }

  /** The URI of one repository profile, `PROFILE_URI + "/" + str(profile_id)`. */
  function ProfileIdUri(profileId: int): string
  {
    ProfileUri + "/" + IntString(profileId)
  }
}
