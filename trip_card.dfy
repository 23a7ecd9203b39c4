/** A search result card (components/trip-card.tsx): avatar initials, departure time and the action button. */
module TripCard {
  import opened Wrappers
  import opened Display

  datatype Card = Card(initials: string, time: string, actions: seq<Action>)

  /** What a card shows for a user name, a travel time (with the `parseInt` value of its hour
      text) and a connection status. */
  function TripCardView(userName: string, travelTime: string, hour: Option<int>,
                        status: ConnectionStatus, connecting: bool): (c: Card)
    ensures c.initials == Initials(userName)
    ensures c.time == FormatTime(travelTime, hour)
    ensures |c.actions| == 1
    ensures status == NoConnection ==> c.actions == [ConnectButton(connecting)]
    ensures status == PendingConnection ==> c.actions == [PendingButton("Pending")]
    ensures status == Connected ==> c.actions == [MessageButton]
  {
    Card(Initials(userName), FormatTime(travelTime, hour), StatusActions(status, connecting, "Pending"))
  }
}
