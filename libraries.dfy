/** The table of supported third-party headers and the linker flags each one needs. */
module Libraries {
  import opened Text

  /** The header text, exactly as written in an `#include`, to its flags. The source assigns the key
      "OIS/OISInputManager.h" twice with the same value; it appears once here. */
  const Librarys: map<string, seq<string>> := map[
    "SDL/SDL.h" := ["-lSDL"],
    "SDL/SDL_image.h" := ["-lSDL_image", "-lSDL"],
    "SDL/SDL_mixer.h" := ["-lSDL_mixer", "-lSDL"],
    "SDL/SDL_opengl.h" := ["-lGL", "-lSDL"],
    "SDL/SDL_ttf.h" := ["-lSDL_ttf", "-lSDL"],
    "SDL/SDL_net.h" := ["-lSDL_net", "-lSDL"],
    "SDL/SDL_thread.h" := ["-lSDL"],
    "GL/glfw.h" := ["-lglfw", "-lGL"],
    "Box2D/Box2D.h" := ["-lBox2D"],
    "openssl/sha.h" := ["-lcrypto"],
    "gcrypt.h" := ["-lgcrypt", "-lgpg-error"],
    "zmq.hpp" := ["-lzmq"],
    "zmq.h" := ["-lzmq"],
    "OIS/OISInputManager.h" := ["-lOIS"],
    "OIS/OISEvents.h" := ["-lOIS"],
    "ncurses.h" := ["-lncurses"],
    "GL/gl.h" := ["-lGL"],
    "GL/glu.h" := ["-lGLU", "-lGL"],
    "GL/glew.h" := ["-lGLEW", "-lGLU", "-lGL"],
    "GL/glut.h" := ["-lGLUT", "-lGLU", "-lGL"],
    "Horde3D/Horde3D.h" := ["-lHorde3D"],
    "Horde3D/Horde3DUtils.h" := ["-lHorde3D", "-lHorde3DUtils"],
    "OGRE/OgreCamera.h" := ["-lOgreMain"],
    "OGRE/OgreEntity.h" := ["-lOgreMain"],
    "OGRE/OgrePrerequisites.h" := ["-lOgreMain"],
    "OGRE/OgreRoot.h" := ["-lOgreMain"],
    "OGRE/OgreViewport.h" := ["-lOgreMain"],
    "OGRE/OgreSceneManager.h" := ["-lOgreMain"]
  ]

  /** A header-to-flags table; `Librarys` is the one the program uses. */
  type Table = map<string, seq<string>>

  /** The flags of one include: its table entry, or nothing when it is not an exact key. */
  function FlagsOf(lib: Table, header: string): seq<string>
  {
    if header in lib then lib[header] else []
  }

  /** The flags a run of `depend.extend(librarys[case])` over `headers` appends, in order. */
  function LibraryFlags(lib: Table, headers: seq<string>): seq<string>
  {
    if headers == [] then []
    else LibraryFlags(lib, headers[..|headers| - 1]) + FlagsOf(lib, headers[|headers| - 1])
  }

  /** Every appended flag belongs to a key among the headers, and every key among the headers
      contributes all of its flags; a header that is not a key contributes nothing. */
  lemma {:induction false} LibraryFlagsSpec(lib: Table, headers: seq<string>)
    ensures forall f :: f in LibraryFlags(lib, headers) ==> exists h :: h in headers && h in lib && f in lib[h]
    ensures forall h, f :: h in headers && h in lib && f in lib[h] ==> f in LibraryFlags(lib, headers)
  {
    if headers != [] {
      var init := headers[..|headers| - 1];
      LibraryFlagsSpec(lib, init);
      assert headers == init + [headers[|headers| - 1]];
    }
  }

  /** Every flag of the program's table is a `-l` linker option. */
  lemma LibrarysFlags()
    ensures forall h, f :: h in Librarys && f in Librarys[h] ==> StartsWith(f, "-l")
  {
  }
}
