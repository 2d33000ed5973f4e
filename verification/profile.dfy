/** `GET /api/lookup-profile/:address`: classify a wallet address and the
    profile directory's answer into the endpoint's response. The directory
    (`permaweb.getProfileByWalletAddress`) is an input. */
module Profile {
  import opened JsValues

  /** Arweave addresses are 43 characters long. */
  const AddressLength: nat := 43

  /** The directory's record; any field may be missing or empty. */
  datatype RawProfile = RawProfile(
    id: Option<string>,
    walletAddress: Option<string>,
    username: Option<string>,
    displayName: Option<string>,
    description: Option<string>,
    thumbnail: Option<string>,
    banner: Option<string>,
    assets: Option<seq<string>>)

  /** The awaited directory call: a value (possibly null) or an exception. */
  datatype DirectoryReply = Returned(profile: Option<RawProfile>) | Threw(message: string)

  /** The directory client: never initialised, initialised without the
      lookup method, or ready and answering. */
  datatype Directory = NotInitialized | MethodMissing | Ready(reply: DirectoryReply)

  /** The profile as sent to the client, every key present. */
  datatype ProfileInfo = ProfileInfo(
    id: string,
    walletAddress: string,
    username: string,
    displayName: string,
    description: string,
    thumbnail: Option<string>,
    banner: Option<string>,
    assets: seq<string>)

  datatype UnavailableReason = PermawebNotInitialized | MethodNotAvailable

  datatype LookupResponse =
    | AddressRequired
    | InvalidAddressFormat
    | ServiceUnavailable(reason: UnavailableReason)
    | Found(profile: ProfileInfo)
    | NoProfile(profileExists: bool)
    | LookupFailed(message: string)
  {
    /** The HTTP status the endpoint answers with. */
    function Status(): int {
      if AddressRequired? || InvalidAddressFormat? then 400
      else if LookupFailed? then 500
      else 200
    }

    /** The `success` flag of the body. */
    predicate Success() {
      Found?
    }

    /** The `requiresProfile` flag of the body (absent means false). */
    predicate RequiresProfile() {
      ServiceUnavailable? || NoProfile? || LookupFailed?
    }
  }

  /** The JavaScript `||` defaults applied to a directory record. */
  predicate Defaulted(raw: RawProfile, address: string, p: ProfileInfo) {
    && Truthy(raw.id) && p.id == raw.id.value
    && p.walletAddress == OrElse(raw.walletAddress, address)
    && p.username == OrElse(raw.username, "Unknown")
    && p.displayName == OrElse(raw.displayName, "Unknown")
    && p.description == OrElse(raw.description, "")
    && p.thumbnail == OrNull(raw.thumbnail)
    && p.banner == OrNull(raw.banner)
    && p.assets == raw.assets.GetOr([])
  }

  function LookupProfile(address: string, dir: Directory): (r: LookupResponse)
    ensures r.Status() == 400 <==> Utf16Length(address) != AddressLength
    ensures r.Success() <==>
      && Utf16Length(address) == AddressLength
      && dir.Ready? && dir.reply.Returned? && dir.reply.profile.Some?
      && Truthy(dir.reply.profile.value.id)
    ensures r.Found? ==> Defaulted(dir.reply.profile.value, address, r.profile)
    ensures r.Found? ==>
      r.profile.id != "" && r.profile.walletAddress != "" &&
      r.profile.username != "" && r.profile.displayName != ""
    ensures r.Status() != 400 ==> (r.Success() <==> !r.RequiresProfile())
    ensures r.ServiceUnavailable? <==> Utf16Length(address) == AddressLength && !dir.Ready?
    ensures r.ServiceUnavailable? ==> (r.reason == PermawebNotInitialized <==> dir.NotInitialized?)
    // a thrown lookup is a 500; a missing record or one without an id, a 200
    ensures r.Status() == 500 <==>
      Utf16Length(address) == AddressLength && dir.Ready? && dir.reply.Threw?
    ensures r.NoProfile? <==>
      && Utf16Length(address) == AddressLength && dir.Ready? && dir.reply.Returned?
      && !(dir.reply.profile.Some? && Truthy(dir.reply.profile.value.id))
    ensures r.NoProfile? ==> (r.profileExists <==> dir.reply.profile.Some?)
  {
    if address == "" then AddressRequired
    else if Utf16Length(address) != AddressLength then InvalidAddressFormat
    else
      match dir
      case NotInitialized => ServiceUnavailable(PermawebNotInitialized)
      case MethodMissing => ServiceUnavailable(MethodNotAvailable)
      case Ready(Threw(msg)) => LookupFailed(msg)
      case Ready(Returned(None)) => NoProfile(false)
      case Ready(Returned(Some(raw))) =>
        if Truthy(raw.id) then
          Found(ProfileInfo(raw.id.value, OrElse(raw.walletAddress, address),
                            OrElse(raw.username, "Unknown"), OrElse(raw.displayName, "Unknown"),
                            OrElse(raw.description, ""), OrNull(raw.thumbnail), OrNull(raw.banner),
                            raw.assets.GetOr([])))
        else NoProfile(true)
  }

  /** A malformed address is answered before the directory is consulted:
      the response is the same 400 whatever state the directory is in. */
  lemma ValidationBeforeDirectory(address: string, d1: Directory, d2: Directory)
    requires Utf16Length(address) != AddressLength
    ensures LookupProfile(address, d1) == LookupProfile(address, d2)
    ensures LookupProfile(address, d1).Status() == 400
  {
  }

  /** Any 43-character ASCII address passes validation, so its response is
      decided by the directory. */
  lemma AsciiAddressConsultsDirectory(address: string, dir: Directory)
    requires |address| == AddressLength
    requires forall i :: 0 <= i < |address| ==> address[i] as int < 128
    ensures LookupProfile(address, dir).Status() != 400
  {
    BmpLength(address);
  }
}
