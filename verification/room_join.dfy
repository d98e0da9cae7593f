/**
  The room screen (src/components/RoomJoin.tsx): the join guard on the typed
  room id, the disabled state of the two join buttons, and the random room id.
  `Math.random().toString(36)` is supplied as a string.
*/
module RoomJoin {
  import opened Wrappers
  import opened JsString

  /** The role a join button asks for. */
  datatype Role = Streamer | Viewer

  /** One `onJoinRoom(roomId, mode)` call. */
  datatype JoinRequest = JoinRequest(roomId: string, role: Role)

  /** `handleJoin(mode)`: join with the trimmed id when it is not blank,
      otherwise do nothing. */
  function HandleJoin(roomId: string, role: Role): (r: Option<JoinRequest>)
    ensures r.Some? <==> !AllWhitespace(roomId)
    ensures r.Some? ==> r.value.roomId == Trim(roomId) && r.value.role == role
    ensures r.Some? ==> r.value.roomId != [] && Trimmed(r.value.roomId)
                        && Trim(r.value.roomId) == r.value.roomId
  {
    var t := Trim(roomId);
    TrimEmptyIffBlank(roomId);
    TrimIdempotent(roomId);
    if t != [] then Some(JoinRequest(t, role)) else None
  }

  /** `disabled={!roomId.trim()}` on both join buttons. */
  predicate JoinDisabled(roomId: string) {
    Trim(roomId) == []
  }

  /** A button is disabled exactly when clicking it would be refused, for
      either role. */
  lemma DisabledExactlyWhenRefused(roomId: string, role: Role)
    ensures JoinDisabled(roomId) <==> HandleJoin(roomId, role).None?
    ensures JoinDisabled(roomId) <==> AllWhitespace(roomId)
  {
    TrimEmptyIffBlank(roomId);
  }

  /** `generateRandomRoom`: characters [2, 8) of the base-36 text, upper-cased. */
  function GenerateRandomRoom(random: string): (id: string)
    ensures |id| <= 6
    ensures |random| >= 8 ==> |id| == 6
    ensures 2 <= |random| <= 8 ==> |id| == |random| - 2
    ensures forall k :: 0 <= k < |id| ==> !IsLowerAscii(id[k])
    ensures forall k :: 0 <= k < |id| ==> 2 + k < |random| && id[k] == UpperChar(random[2 + k])
  {
    ToUpper(Substring(random, 2, 8))
  }

  /** The characters `Number.prototype.toString(36)` writes for a fraction. */
  predicate IsBase36Text(s: string) {
    forall k :: 0 <= k < |s| ==> IsDigit(s[k]) || IsLowerAscii(s[k]) || s[k] == '.'
  }

  /** A generated id is never blank, so both join buttons are enabled once it
      is in the input (as long as the random text has a digit after "0."). */
  lemma GeneratedRoomIsJoinable(random: string)
    requires IsBase36Text(random) && |random| > 2
    ensures !JoinDisabled(GenerateRandomRoom(random))
  {
    var id := GenerateRandomRoom(random);
    assert !IsWhitespace(id[0]);
    TrimEmptyIffBlank(id);
  }
}
