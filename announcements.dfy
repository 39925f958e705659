/**
  How the announcements admin page `src/pages/admin/AdminAnnouncements.jsx` turns the
  stored image path of an announcement into the URL it shows.

  `import.meta.env.VITE_CMS_API` is a parameter: `None` when the variable is not set.
*/
module Announcements {
  import opened Wrappers
  import opened JsText

  /** The CMS address used when `VITE_CMS_API` is unset or empty. */
  const DefaultApi: string := "http://localhost:3001/api"

  /** The image shown for an announcement without an image. */
  const DefaultImage: string := "/announcement/default.jpg"

  /** `import.meta.env.VITE_CMS_API || 'http://localhost:3001/api'`: an empty value is falsy too. */
  function ApiUrl(env: Option<string>): (u: string)
    ensures env.Some? && env.value != "" ==> u == env.value
    ensures env.None? || env == Some("") ==> u == DefaultApi
  {
    if env.Some? && env.value != "" then env.value else DefaultApi
  }

  /**
    `apiUrl.replace(/\/api\/?$/, '')`: the pattern only matches at the very end, so at most
    one trailing `/api` or `/api/` is removed.
  */
  function StripApi(u: string): (r: string)
    ensures |r| <= |u| && u[..|r|] == r
    ensures u[|r|..] == "" || u[|r|..] == "/api" || u[|r|..] == "/api/"
    ensures u[|r|..] == "" <==> !EndsWith(u, "/api") && !EndsWith(u, "/api/")
  {
    if EndsWith(u, "/api/") then u[..|u| - 5]
    else if EndsWith(u, "/api") then u[..|u| - 4]
    else u
  }

  /** `getImageBaseUrl()`: the CMS address without its trailing `/api`. */
  function GetImageBaseUrl(env: Option<string>): (base: string)
    ensures base == ApiUrl(env) || base + "/api" == ApiUrl(env) || base + "/api/" == ApiUrl(env)
    ensures base == ApiUrl(env) <==> !EndsWith(ApiUrl(env), "/api") && !EndsWith(ApiUrl(env), "/api/")
  {
    var u := ApiUrl(env);
    var r := StripApi(u);
    assert u == r + u[|r|..];
    r
  }

  /** Without the variable the images are served from the local CMS server. */
  lemma DefaultBaseUrl()
    ensures GetImageBaseUrl(None) == "http://localhost:3001"
    ensures GetImageBaseUrl(Some("")) == "http://localhost:3001"
  {
    assert EndsWith(DefaultApi, "/api");
    assert !EndsWith(DefaultApi, "/api/");
  }

  /** Only one `/api` goes: an address ending in `/api/api` keeps the first of the two. */
  lemma StripsOnlyOnce(host: string)
    ensures GetImageBaseUrl(Some(host + "/api/api")) == host + "/api"
  {
    var u := host + "/api/api";
    assert u[|u| - 4..] == "/api";
    assert u[|u| - 5..] != "/api/" by {
      assert u[|u| - 1] == 'i';
    }
    assert u[..|u| - 4] == host + "/api";
  }

  /**
    `getImageUrl(imageUrl)`: `None` stands for `null`/`undefined`. A missing or empty path
    gives the default image; a full `http://`/`https://` URL is kept; an upload path gets
    the CMS base in front; any other path is kept as a relative path.
  */
  function GetImageUrl(imageUrl: Option<string>, env: Option<string>): (url: string)
    ensures imageUrl.None? || imageUrl == Some("") ==> url == DefaultImage
    ensures imageUrl.Some? && (StartsWith(imageUrl.value, "http://") || StartsWith(imageUrl.value, "https://")) ==>
      url == imageUrl.value
    ensures imageUrl.Some? && StartsWith(imageUrl.value, "/uploads") ==> url == GetImageBaseUrl(env) + imageUrl.value
    ensures (imageUrl.Some? && imageUrl.value != "" && !StartsWith(imageUrl.value, "/uploads")
             && !StartsWith(imageUrl.value, "http://") && !StartsWith(imageUrl.value, "https://")) ==> url == imageUrl.value
  {
    if imageUrl.None? || imageUrl.value == "" then DefaultImage
    else
      var path := imageUrl.value;
      if StartsWith(path, "http://") || StartsWith(path, "https://") then
        assert path[0] == 'h';
        assert !StartsWith(path, "/uploads");
        path
      else if StartsWith(path, "/uploads") then
        assert !StartsWith(path, "http://") && !StartsWith(path, "https://");
        GetImageBaseUrl(env) + path
      else
        path
  }

  /** A stored path is never lost: the URL always ends with it. */
  lemma ImageUrlEndsWithPath(path: string, env: Option<string>)
    requires path != ""
    ensures EndsWith(GetImageUrl(Some(path), env), path)
  {
    var url := GetImageUrl(Some(path), env);
    if StartsWith(path, "/uploads") && !StartsWith(path, "http://") && !StartsWith(path, "https://") {
      var base := GetImageBaseUrl(env);
      assert url == base + path;
      assert url[|url| - |path|..] == path;
    }
  }

  /** A non-empty string that starts with `/` does not start with a proper non-empty prefix of `/uploads` followed by it. */
  lemma UploadsPrefix(base: string, path: string)
    requires path != "" && path[0] == '/'
    requires base != "" && !StartsWith(base, "/uploads")
    ensures !StartsWith(base + path, "/uploads")
  {
    var s := base + path;
    if |s| >= 8 {
      if |base| >= 8 {
        assert s[..8] == base[..8];
      } else {
        assert s[..8][|base|] == path[0];
        assert "/uploads"[|base|] != '/';
      }
    }
  }

  /**
    Resolving a resolved URL again changes nothing, as long as the base address does not
    itself start with `/uploads` (then every resolution would add it once more).
  */
  lemma ImageUrlStable(imageUrl: Option<string>, env: Option<string>)
    requires !StartsWith(GetImageBaseUrl(env), "/uploads")
    ensures GetImageUrl(Some(GetImageUrl(imageUrl, env)), env) == GetImageUrl(imageUrl, env)
  {
    var url := GetImageUrl(imageUrl, env);
    if imageUrl.Some? && imageUrl.value != "" {
      var path := imageUrl.value;
      var base := GetImageBaseUrl(env);
      if url == base + path && base != "" && !StartsWith(path, "http://") && !StartsWith(path, "https://") && StartsWith(path, "/uploads") {
        assert path[0] == '/';
        UploadsPrefix(base, path);
      }
    } else {
      assert url == DefaultImage;
      assert DefaultImage[..8][1] == 'a' && "/uploads"[1] == 'u';
    }
  }

  /** With an address that starts with `/uploads` the resolution is not stable. */
  lemma ImageUrlGrowsUnderUploadsBase()
    ensures var env := Some("/uploads/api");
      GetImageUrl(Some(GetImageUrl(Some("/uploads/a.jpg"), env)), env) != GetImageUrl(Some("/uploads/a.jpg"), env)
  {
    var env := Some("/uploads/api");
    assert EndsWith("/uploads/api", "/api");
    assert !EndsWith("/uploads/api", "/api/");
    assert GetImageBaseUrl(env) == "/uploads";
    assert StartsWith("/uploads/a.jpg", "/uploads");
    var once := "/uploads" + "/uploads/a.jpg";
    assert GetImageUrl(Some("/uploads/a.jpg"), env) == once;
    assert StartsWith(once, "/uploads");
    assert !StartsWith(once, "http://") && !StartsWith(once, "https://") by {
      assert once[0] == '/';
    }
    assert |GetImageUrl(Some(once), env)| > |once|;
  }
}
