/**
  The page (src/pages/Index.tsx): its `mode` and `roomId` state, the
  `handleJoinRoom` / `handleLeaveRoom` transitions and the choice of the one
  view to render.
*/
module IndexPage {
  import opened Wrappers
  import opened JsString
  import RoomJoin

  datatype Mode = Join | Streamer | Viewer

  datatype Page = Page(mode: Mode, roomId: string)

  /** `useState('join')` and `useState('')`. */
  const Initial := Page(Join, "")

  function ModeOf(role: RoomJoin.Role): (m: Mode)
    ensures m != Join
    ensures role.Streamer? <==> m == Streamer
  {
    match role
    case Streamer => Streamer
    case Viewer => Viewer
  }

  /** `handleJoinRoom(id, userMode)`: both pieces of state are replaced. */
  function HandleJoinRoom(p: Page, id: string, role: RoomJoin.Role): (r: Page)
    ensures r.roomId == id && r.mode == ModeOf(role)
  {
    Page(ModeOf(role), id)
  }

  /** `handleLeaveRoom()`: back to the room screen with an empty id. */
  function HandleLeaveRoom(p: Page): (r: Page)
    ensures r.mode == Join && r.roomId == []
  {
    Page(Join, "")
  }

  /** The component the page returns. */
  datatype View = RoomJoinView | StreamerView(roomId: string) | ViewerView(roomId: string)

  /** The `if` chain of the render: `join` shows the room screen, `streamer`
      the streamer view, anything else the viewer view, each with the id. */
  function Render(p: Page): (v: View)
    ensures v.RoomJoinView? <==> p.mode.Join?
    ensures v.StreamerView? <==> p.mode.Streamer?
    ensures v.ViewerView? <==> p.mode.Viewer?
    ensures !v.RoomJoinView? ==> v.roomId == p.roomId
  {
    if p.mode.Join? then RoomJoinView
    else if p.mode.Streamer? then StreamerView(p.roomId)
    else ViewerView(p.roomId)
  }

  /** The page starts on the room screen. */
  lemma InitialShowsRoomScreen()
    ensures Render(Initial) == RoomJoinView && Initial.roomId == []
  {
  }

  /** Leaving from any state is the initial state, so leaving twice is
      leaving once. */
  lemma LeaveIsIdempotent(p: Page)
    ensures HandleLeaveRoom(p) == Initial
    ensures HandleLeaveRoom(HandleLeaveRoom(p)) == HandleLeaveRoom(p)
  {
  }

  /** Joining does not depend on where the page was, and leaving afterwards
      forgets the join entirely. */
  lemma JoinThenLeave(p: Page, q: Page, id: string, role: RoomJoin.Role)
    ensures HandleJoinRoom(p, id, role) == HandleJoinRoom(q, id, role)
    ensures HandleLeaveRoom(HandleJoinRoom(p, id, role)) == Initial
  {
  }

  /** After a join the page shows the view for the chosen role, with the id. */
  lemma RenderAfterJoin(p: Page, id: string, role: RoomJoin.Role)
    ensures Render(HandleJoinRoom(p, id, role))
            == (if role.Streamer? then StreamerView(id) else ViewerView(id))
  {
  }

  /** A click on a join button of the room screen, wired to `handleJoinRoom`. */
  function ClickJoin(p: Page, typed: string, role: RoomJoin.Role): (r: Page)
    ensures AllWhitespace(typed) ==> r == p
    ensures !AllWhitespace(typed) ==> r == Page(ModeOf(role), Trim(typed))
  {
    match RoomJoin.HandleJoin(typed, role)
    case None => p
    case Some(req) => HandleJoinRoom(p, req.roomId, req.role)
  }

  /** From the room screen: a blank id keeps the room screen; any other id
      opens the chosen view with the trimmed, non-empty id. */
  lemma JoinFromRoomScreen(typed: string, role: RoomJoin.Role)
    ensures AllWhitespace(typed) ==> Render(ClickJoin(Initial, typed, role)) == RoomJoinView
    ensures !AllWhitespace(typed) ==>
              var v := Render(ClickJoin(Initial, typed, role));
              && !v.RoomJoinView?
              && v.StreamerView? == role.Streamer?
              && v.roomId == Trim(typed) && v.roomId != [] && Trimmed(v.roomId)
  {
    if !AllWhitespace(typed) {
      TrimEmptyIffBlank(typed);
    }
  }
}
