/** The records the legacy status-page service works on. A status page is a
    document whose `domains` and `monitors` arrays the service reassigns and
    saves, so it is a class; the entries of those arrays and the scheduled
    events are values. Identifiers are modelled as their text and compared by
    value. */
module StatusPageModel {
  import opened Wrappers

  /** One custom domain of a status page (an entry of `statusPage.domains`).
      The page is read with its verification tokens populated: `None` stands
      for an entry whose token document no longer exists, which population
      turns into `null`. */
  datatype Domain = Domain(
    id: string,
    domain: string,
    cert: string,
    privateKey: string,
    enableHttps: bool,
    autoProvisioning: bool,
    verificationToken: Option<string>)

  /** One entry of `statusPage.monitors`. */
  datatype MonitorRef = MonitorRef(monitor: string, description: string)

  /** A scheduled maintenance event, with its start date as a timestamp. */
  datatype Event = Event(id: string, name: string, startDate: int)

  /** The errors the service throws, with their messages. */
  datatype ServiceError =
    | PageNotFound
    | DomainAlreadyExists
    | CustomDomainTaken(domain: string)
    | NoMonitorToCheck
    | Unauthorized
    | NullDereference(property: string)

  function ErrorMessage(e: ServiceError): string
  {
    match e
    case PageNotFound => "Status page not found or does not exist"
    case DomainAlreadyExists => "Domain already exists"
    case CustomDomainTaken(d) => "This custom domain " + d + " already exist"
    case NoMonitorToCheck => "no monitor to check"
    case Unauthorized => "You are unauthorized to access the page please login to continue."
    case NullDereference(property) => "Cannot read properties of null (reading '" + property + "')"
  }

  /** A status page document. */
  class StatusPage {
    const id: string
    const projectId: string
    const isPrivate: bool
    var domains: seq<Domain>
    var monitors: seq<MonitorRef>

    constructor(pageId: string, project: string, privatePage: bool,
                pageDomains: seq<Domain>, pageMonitors: seq<MonitorRef>)
      ensures id == pageId && projectId == project && isPrivate == privatePage
      ensures domains == pageDomains && monitors == pageMonitors
    {
      id := pageId;
      projectId := project;
      isPrivate := privatePage;
      domains := pageDomains;
      monitors := pageMonitors;
    }
  }
}
