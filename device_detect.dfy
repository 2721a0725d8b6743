/** app/utils/device_detect.py: classification of a request's user-agent into
    ios | android | other, and the device-info record built from it. The
    user_agents parser is a foreign library; `parse` stands for it and returns
    the fields of its result the module reads. */
module DeviceDetect {
  import opened Wrappers

  /** The parts of a parsed user-agent that the module reads. A name the parser
      could not determine is None or empty. */
  datatype UserAgent = UserAgent(
    osFamily: Option<string>,
    osVersion: Option<string>,
    deviceFamily: Option<string>,
    browserFamily: Option<string>,
    browserVersion: Option<string>,
    isMobile: bool,
    isTablet: bool,
    isBot: bool)

  type Parser = string -> UserAgent

  datatype Platform = Ios | Android | Other {
    /** The string stored in a click and compared by the analytics queries. */
    function Name(): (s: string)
      ensures s in {"ios", "android", "other"}
    {
      match this
      case Ios => "ios"
      case Android => "android"
      case Other => "other"
    }
  }

  /** detect_platform: an empty user-agent is Other; a mobile client whose OS
      family is "iOS" is Ios; OS family "Android" is Android whether or not the
      client is mobile; everything else is Other. */
  function DetectPlatform(userAgent: string, parse: Parser): (p: Platform)
    ensures p == Ios <==>
      userAgent != "" && parse(userAgent).isMobile && parse(userAgent).osFamily == Some("iOS")
    ensures p == Android <==>
      userAgent != "" && parse(userAgent).osFamily == Some("Android")
  {
    if userAgent == "" then Other
    else
      var ua := parse(userAgent);
      if ua.isMobile && ua.osFamily == Some("iOS") then Ios
      else if ua.osFamily == Some("Android") then Android
      else Other
  }

  /** The mobile flag gates iOS and not Android: an iOS client that the parser
      does not flag as mobile is Other, a non-mobile Android client is Android. */
  lemma MobileFlagAsymmetry(userAgent: string, parse: Parser)
    requires userAgent != "" && !parse(userAgent).isMobile
    ensures parse(userAgent).osFamily == Some("iOS") ==> DetectPlatform(userAgent, parse) == Other
    ensures parse(userAgent).osFamily == Some("Android") ==> DetectPlatform(userAgent, parse) == Android
  {
  }

  /** The empty user-agent is Other whatever the parser would say. */
  lemma EmptyIsOther(parse: Parser)
    ensures DetectPlatform("", parse) == Other
  {
  }

  /** The dictionary get_device_info returns. browserVersion is None when the
      key is absent (the empty user-agent case). */
  datatype DeviceInfo = DeviceInfo(
    platform: Platform,
    device: string,
    os: string,
    osVersion: string,
    browser: string,
    browserVersion: Option<string>,
    isMobile: bool,
    isTablet: bool,
    isBot: bool)

  /** Python's `name or 'Unknown'`: None and "" both become "Unknown". */
  function OrUnknown(name: Option<string>): (s: string)
    ensures s != ""
    ensures name.Some? && name.value != "" ==> s == name.value
    ensures (name.None? || name.value == "") ==> s == "Unknown"
  {
    if name.Some? && name.value != "" then name.value else "Unknown"
  }

  /** The record returned for an empty user-agent. */
  const DefaultDeviceInfo: DeviceInfo :=
    DeviceInfo(Other, "Unknown", "Unknown", "Unknown", "Unknown", None, false, false, false)

  /** get_device_info. */
  function GetDeviceInfo(userAgent: string, parse: Parser): (info: DeviceInfo)
    ensures userAgent == "" ==> info == DefaultDeviceInfo
    ensures info.platform == DetectPlatform(userAgent, parse)
    ensures info.device != "" && info.os != "" && info.osVersion != "" && info.browser != ""
    ensures userAgent != "" ==>
      && info.browserVersion.Some?
      && info.device == OrUnknown(parse(userAgent).deviceFamily)
      && info.os == OrUnknown(parse(userAgent).osFamily)
      && info.osVersion == OrUnknown(parse(userAgent).osVersion)
      && info.browser == OrUnknown(parse(userAgent).browserFamily)
      && info.browserVersion == Some(OrUnknown(parse(userAgent).browserVersion))
      && info.isMobile == parse(userAgent).isMobile
      && info.isTablet == parse(userAgent).isTablet
      && info.isBot == parse(userAgent).isBot
  {
    if userAgent == "" then DefaultDeviceInfo
    else
      var ua := parse(userAgent);
      DeviceInfo(
        DetectPlatform(userAgent, parse),
        OrUnknown(ua.deviceFamily),
        OrUnknown(ua.osFamily),
        OrUnknown(ua.osVersion),
        OrUnknown(ua.browserFamily),
        Some(OrUnknown(ua.browserVersion)),
        ua.isMobile,
        ua.isTablet,
        ua.isBot)
  }

  /** The os field of the device info names the family that decided the platform:
      a non-Other platform comes with os "iOS" or "Android". */
  lemma DeviceInfoAgreesWithPlatform(userAgent: string, parse: Parser)
    ensures var info := GetDeviceInfo(userAgent, parse);
      && (info.platform == Ios ==> info.os == "iOS" && info.isMobile)
      && (info.platform == Android ==> info.os == "Android")
  {
  }

  /** is_mobile_device: the platform is Ios or Android, which happens exactly
      when the parser reports OS family "Android", or "iOS" on a mobile client. */
  function IsMobileDevice(userAgent: string, parse: Parser): (mobile: bool)
    ensures mobile <==>
      && userAgent != ""
      && (|| parse(userAgent).osFamily == Some("Android")
          || (parse(userAgent).isMobile && parse(userAgent).osFamily == Some("iOS")))
  {
    DetectPlatform(userAgent, parse) in {Ios, Android}
  }
}
