/** The notification library's client, reduced to what the modelled code can
    observe: the destination URIs added since the last `clear`, and the list
    of `notify` calls made so far, each with the URIs it was sent to. */
module Apprise {

  import Text

  /** `url.split(":")[0]`: the service a destination URI names. */
  function Service(url: string): string {
    Text.FirstField(url, ':')
  }

  datatype Delivery = Delivery(title: string, body: string, urls: seq<string>)

  class Apprise {
    var urls: seq<string>
    var sent: seq<Delivery>

    /** `apprise.Apprise()` */
    constructor ()
      ensures urls == [] && sent == []
    {
      urls := [];
      sent := [];
    }

    /** `add(url)` */
    method Add(url: string)
      modifies this
      ensures urls == old(urls) + [url] && sent == old(sent)
    {
      urls := urls + [url];
    }

    /** `notify(title=..., body=...)`: one delivery to every added URI. */
    method Notify(title: string, body: string)
      modifies this
      ensures sent == old(sent) + [Delivery(title, body, urls)] && urls == old(urls)
    {
      sent := sent + [Delivery(title, body, urls)];
    }

    /** `clear()` */
    method Clear()
      modifies this
      ensures urls == [] && sent == old(sent)
    {
      urls := [];
    }
  }
}
